/**
 * `UmbracoPylonInnerControllerBase`: a controller that sits inside an Umbraco
 * controller. The non-generic class, whose `ContentRepo` falls back to a fresh
 * repository, is modelled together with the generic base's logic.
 *
 * `typeName` is `GetType().Name` of the concrete controller; `current` is the
 * ambient `HttpContext.Current`; the view engine and the renderer are supplied
 * by the caller.
 */
module InnerController {
  import opened Wrappers
  import opened Cms
  import opened Mvc
  import ContentAccessor
  import MediaAccessor
  import PylonRepository

  datatype Controller = Controller(
    typeName: string,
    getContent: Option<ContentAccessor.Accessor>,
    getMedia: Option<MediaAccessor.MediaAccessor>,
    viewStringRenderer: Option<ViewRenderer>,
    umbracoContext: Option<UmbracoContext>,
    enableFileCheck: bool,
    controllerContext: Option<ControllerContext>,
    contentRepo: Option<PylonRepository.Repository>)

  /** The controller after a call, with the call's result. */
  datatype Step<T> = Step(controller: Controller, result: T)

  /**
   * The accessor constructor: stores the accessors, installs the default
   * renderer and turns file checking on; no context and no repository yet.
   */
  function New(typeName: string, getContent: Option<ContentAccessor.Accessor>, getMedia: Option<MediaAccessor.MediaAccessor>): (c: Controller)
    ensures c.typeName == typeName && c.getContent == getContent && c.getMedia == getMedia
    ensures c.viewStringRenderer == Some(DefaultViewStringRenderer)
    ensures c.enableFileCheck
    ensures c.umbracoContext.None? && c.controllerContext.None? && c.contentRepo.None?
  {
    Controller(typeName, getContent, getMedia, Some(DefaultViewStringRenderer), None, true, None, None)
  }

  /** The constructor that also takes an Umbraco context: `New` followed by storing the context. */
  function NewWithContext(typeName: string, getContent: Option<ContentAccessor.Accessor>, getMedia: Option<MediaAccessor.MediaAccessor>,
                          umbracoContext: Option<UmbracoContext>): (c: Controller)
    ensures c == SetUmbracoContext(New(typeName, getContent, getMedia), umbracoContext)
  {
    SetUmbracoContext(New(typeName, getContent, getMedia), umbracoContext)
  }

  /** The `UmbracoContext` setter: only the context changes, and a repository-less controller now builds its repository from it. */
  function SetUmbracoContext(c: Controller, value: Option<UmbracoContext>): (r: Controller)
    ensures r.umbracoContext == value
    ensures r.(umbracoContext := c.umbracoContext) == c
    ensures c.contentRepo.None? && value.Some? ==> ContentRepo(r) == PylonRepository.NewWithContext(value.value)
  {
    c.(umbracoContext := value)
  }

  /** The `ContentRepo` setter: only the repository changes, and an assigned one is what the getter returns. */
  function SetContentRepo(c: Controller, value: Option<PylonRepository.Repository>): (r: Controller)
    ensures r.contentRepo == value
    ensures r.(contentRepo := c.contentRepo) == c
    ensures value.Some? ==> ContentRepo(r) == value.value
  {
    c.(contentRepo := value)
  }

  /** The `EnableFileCheck` setter: only the flag changes, and the view check follows it. */
  function SetEnableFileCheck(c: Controller, value: bool): (r: Controller)
    ensures r.enableFileCheck == value
    ensures r.(enableFileCheck := c.enableFileCheck) == c
    ensures forall template, findView :: EnsurePhysicalViewExists(r, template, findView) == ViewExists(value, c.controllerContext, template, findView)
  {
    c.(enableFileCheck := value)
  }

  /**
   * The `ContentRepo` getter: the assigned repository when there is one;
   * otherwise a repository built on this read, from the Umbraco context when
   * one is set. Nothing is stored, so a later read sees a later context.
   */
  function ContentRepo(c: Controller): (r: PylonRepository.Repository)
    ensures c.contentRepo.Some? ==> r == c.contentRepo.value
    ensures c.contentRepo.None? && c.umbracoContext.Some? ==> r == PylonRepository.NewWithContext(c.umbracoContext.value)
    ensures c.contentRepo.None? && c.umbracoContext.None? ==> r == PylonRepository.New()
  {
    if c.contentRepo.Some? then c.contentRepo.value
    else if c.umbracoContext.Some? then PylonRepository.NewWithContext(c.umbracoContext.value)
    else PylonRepository.New()
  }

  /**
   * `EnsurePhsyicalViewExists(template)`: true with checking off, otherwise
   * whether the view engine finds the view; the lookup throws while the
   * controller has no context, or for an empty name.
   */
  function EnsurePhysicalViewExists(c: Controller, template: string, findView: ViewLocator): (r: Result<bool>)
    ensures !c.enableFileCheck ==> r == Success(true)
    ensures c.enableFileCheck && c.controllerContext.None? ==> r == Failure(ArgumentNull("controllerContext"))
    ensures c.enableFileCheck && c.controllerContext.Some? && template == "" ==> r == Failure(ArgumentNullOrEmpty("viewName"))
    ensures c.enableFileCheck && c.controllerContext.Some? && template != "" ==> r == Success(findView(c.controllerContext.value, template))
  {
    ViewExists(c.enableFileCheck, c.controllerContext, template, findView)
  }

  /**
   * `CurrentTemplate(model)`: the view the route's action names, or empty
   * content when its check fails; an empty action name makes the check throw.
   */
  function CurrentTemplate<M>(c: Controller, findView: ViewLocator, model: M): (r: Result<ActionResult<M>>)
    ensures c.controllerContext.None? ==> r == Failure(NullReference)
    ensures c.controllerContext.Some? && Find(c.controllerContext.value.routeValues, "action").None? ==> r == Failure(NullReference)
    ensures c.controllerContext.Some? && Find(c.controllerContext.value.routeValues, "action").Some? ==>
              var template := RouteValueText(Find(c.controllerContext.value.routeValues, "action").value);
              && (c.enableFileCheck && template == "" ==> r == Failure(ArgumentNullOrEmpty("viewName")))
              && (!c.enableFileCheck ==> r == Success(ViewResult(template, model)))
              && (c.enableFileCheck && template != "" ==>
                    r == Success(if findView(c.controllerContext.value, template) then ViewResult(template, model) else ContentResult("")))
  {
    Mvc.CurrentTemplate(c.controllerContext, t => EnsurePhysicalViewExists(c, t, findView), model)
  }

  /**
   * `SetDefaultContext()`: an existing controller context is returned
   * unchanged; otherwise a default one is built, installed and returned.
   * Without an HTTP context the build throws before anything is assigned,
   * so the controller keeps its null context.
   */
  function SetDefaultContext(c: Controller, current: Option<HttpContext>): (r: Step<Result<ControllerContext>>)
    ensures c.controllerContext.Some? ==> r == Step(c, Success(c.controllerContext.value))
    ensures c.controllerContext.None? && current.None? ==> r == Step(c, Failure(ArgumentNull("httpContext")))
    ensures c.controllerContext.None? && current.Some? ==>
              && r.result == DefaultContext(current, c.typeName)
              && r.result.Success?
              && r.controller == c.(controllerContext := Some(r.result.value))
  {
    var context := EnsureContext(c.controllerContext, current, c.typeName);
    if context.Failure? then Step(c, context)
    else Step(c.(controllerContext := Some(context.value)), context)
  }

  /**
   * `PartialAsString(viewName, model)`: establishes a default context, then
   * renders through the held renderer. A failure to build the context
   * propagates; a null renderer is a null reference, raised after the context
   * has been set.
   */
  function PartialAsString<M>(c: Controller, viewName: string, model: M, current: Option<HttpContext>, render: Render<M>): (r: Step<Result<string>>)
    ensures r.controller == SetDefaultContext(c, current).controller
    ensures r.controller.controllerContext.Some? <==> c.controllerContext.Some? || current.Some?
    ensures SetDefaultContext(c, current).result.Failure? ==> r.result == Failure(ArgumentNull("httpContext"))
    ensures SetDefaultContext(c, current).result.Success? && c.viewStringRenderer.None? ==> r.result == Failure(NullReference)
    ensures SetDefaultContext(c, current).result.Success? && c.viewStringRenderer.Some? ==>
              r.result == Success(render(c.viewStringRenderer.value, viewName, model, SetDefaultContext(c, current).result.value))
  {
    var step := SetDefaultContext(c, current);
    Step(step.controller, RenderPartial(step.result, c.viewStringRenderer, viewName, model, render))
  }

  /**
   * Once `SetDefaultContext` has succeeded, a second call returns the same
   * context and changes nothing, whatever the HTTP context by then; a failed
   * call leaves the controller as it was, so a later call may still succeed.
   */
  lemma SetDefaultContextIsIdempotent(c: Controller, current: Option<HttpContext>, later: Option<HttpContext>)
    ensures SetDefaultContext(c, current).result.Success? ==>
              SetDefaultContext(SetDefaultContext(c, current).controller, later)
              == Step(SetDefaultContext(c, current).controller, SetDefaultContext(c, current).result)
    ensures SetDefaultContext(c, current).result.Failure? ==>
              SetDefaultContext(c, current).controller == c && SetDefaultContext(c, later).result.Success? == later.Some?
  {
  }

  /**
   * A freshly built controller checks files but has no controller context
   * yet, so its view check throws until a context is set; once one is, the
   * view engine decides.
   */
  lemma ConstructedControllerChecksViews(typeName: string, template: string, context: ControllerContext, findView: ViewLocator)
    ensures EnsurePhysicalViewExists(New(typeName, None, None), template, findView) == Failure(ArgumentNull("controllerContext"))
    ensures template != "" ==>
              EnsurePhysicalViewExists(New(typeName, None, None).(controllerContext := Some(context)), template, findView)
              == Success(findView(context, template))
    ensures ContentRepo(New(typeName, None, None)) == PylonRepository.New()
  {
  }

  /**
   * The fallback repository is rebuilt on each read: setting a context after
   * a read changes what the next read returns, while an assigned repository
   * always wins.
   */
  lemma ContentRepoIsNotCached(c: Controller, context: UmbracoContext, repo: PylonRepository.Repository)
    requires c.contentRepo.None?
    ensures ContentRepo(SetUmbracoContext(c, Some(context))) == PylonRepository.NewWithContext(context)
    ensures ContentRepo(SetUmbracoContext(c, None)) == PylonRepository.New()
    ensures ContentRepo(SetUmbracoContext(SetContentRepo(c, Some(repo)), Some(context))) == repo
  {
  }

  /**
   * After `PartialAsString` on a controller without a context, the context
   * carries the derived route name when there is an HTTP context; without
   * one the call fails with the context still null.
   */
  lemma PartialAsStringSetsRouteName<M>(c: Controller, viewName: string, model: M, current: Option<HttpContext>, render: Render<M>)
    requires c.controllerContext.None?
    ensures current.Some? ==>
              PartialAsString(c, viewName, model, current, render).controller.controllerContext
              == Some(ControllerContext(current, [("controller", Value(ControllerRouteName(c.typeName)))]))
    ensures current.None? ==>
              PartialAsString(c, viewName, model, current, render) == Step(c, Failure(ArgumentNull("httpContext")))
  {
  }
}
