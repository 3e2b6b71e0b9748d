/**
 * `UmbracoPylonControllerBase`: a render controller whose content repository
 * falls back to a fresh one, and whose Umbraco context reads as null when the
 * framework's getter throws.
 *
 * `frameworkContext` is what the framework's `UmbracoContext` getter yields:
 * the context, or the failure it throws. The framework's own view check,
 * which this class wraps, is Umbraco's render controller asking the view
 * collection for the template with the controller's context; `findView` is
 * the view engine's answer.
 */
module ControllerBase {
  import opened Wrappers
  import opened Cms
  import opened Mvc
  import PylonRepository

  datatype Controller = Controller(
    frameworkContext: Result<UmbracoContext>,
    enableFileCheck: bool,
    controllerContext: Option<ControllerContext>,
    contentRepo: Option<PylonRepository.Repository>)

  /** The parameterless constructor: file checking on; the context is whatever the framework provides. */
  function New(frameworkContext: Result<UmbracoContext>): (c: Controller)
    ensures c.enableFileCheck && c.frameworkContext == frameworkContext
    ensures c.controllerContext.None? && c.contentRepo.None?
  {
    Controller(frameworkContext, true, None, None)
  }

  /** The context constructor: file checking on; the framework holds the given context. */
  function NewWithContext(umbracoContext: UmbracoContext): (c: Controller)
    ensures c.enableFileCheck && c.frameworkContext == Success(umbracoContext)
    ensures c.controllerContext.None? && c.contentRepo.None?
  {
    Controller(Success(umbracoContext), true, None, None)
  }

  /** The `ContentRepo` setter: only the repository changes, and an assigned one is what the getter returns. */
  function SetContentRepo(c: Controller, value: Option<PylonRepository.Repository>): (r: Controller)
    ensures r.contentRepo == value
    ensures r.(contentRepo := c.contentRepo) == c
    ensures value.Some? ==> ContentRepo(r) == value.value
  {
    c.(contentRepo := value)
  }

  /** The `UmbracoContext` getter: the framework's context, null when its getter throws. */
  function UmbracoContext(c: Controller): (r: Option<UmbracoContext>)
    ensures r.None? <==> c.frameworkContext.Failure?
    ensures r.Some? ==> c.frameworkContext == Success(r.value)
  {
    match c.frameworkContext
    case Success(context) => Some(context)
    case Failure(_) => None
  }

  /**
   * `EnsurePhsyicalViewExists(template)`: true with checking off, otherwise
   * the framework's check — the view collection's lookup with the
   * controller's context — whose throws for a missing context or an empty
   * name propagate.
   */
  function EnsurePhysicalViewExists(c: Controller, template: string, findView: ViewLocator): (r: Result<bool>)
    ensures !c.enableFileCheck ==> r == Success(true)
    ensures c.enableFileCheck ==> r == FindView(c.controllerContext, template, findView)
    ensures r.Failure? <==> c.enableFileCheck && (c.controllerContext.None? || template == "")
  {
    if !c.enableFileCheck then Success(true) else FindView(c.controllerContext, template, findView)
  }

  /**
   * `CurrentTemplate(model)`: the view the route's action names, or empty
   * content when its check fails; an empty action name makes the check throw.
   */
  function CurrentTemplate<M>(c: Controller, findView: ViewLocator, model: M): (r: Result<ActionResult<M>>)
    ensures c.controllerContext.None? ==> r == Failure(NullReference)
    ensures c.controllerContext.Some? && Find(c.controllerContext.value.routeValues, "action").None? ==> r == Failure(NullReference)
    ensures c.controllerContext.Some? && Find(c.controllerContext.value.routeValues, "action").Some? ==>
              var template := RouteValueText(Find(c.controllerContext.value.routeValues, "action").value);
              && (c.enableFileCheck && template == "" ==> r == Failure(ArgumentNullOrEmpty("viewName")))
              && (!c.enableFileCheck ==> r == Success(ViewResult(template, model)))
              && (c.enableFileCheck && template != "" ==>
                    r == Success(if findView(c.controllerContext.value, template) then ViewResult(template, model) else ContentResult("")))
  {
    Mvc.CurrentTemplate(c.controllerContext, t => EnsurePhysicalViewExists(c, t, findView), model)
  }

  /**
   * The `ContentRepo` getter: the assigned repository when there is one;
   * otherwise one built on this read, bound to the context when the context
   * getter yields one.
   */
  function ContentRepo(c: Controller): (r: PylonRepository.Repository)
    ensures c.contentRepo.Some? ==> r == c.contentRepo.value
    ensures c.contentRepo.None? && c.frameworkContext.Success? ==> r == PylonRepository.NewWithContext(c.frameworkContext.value)
    ensures c.contentRepo.None? && c.frameworkContext.Failure? ==> r == PylonRepository.New()
  {
    if c.contentRepo.Some? then c.contentRepo.value
    else
      match UmbracoContext(c)
      case Some(context) => PylonRepository.NewWithContext(context)
      case None => PylonRepository.New()
  }

  /** A throwing framework getter never reaches the caller: the repository still comes back, without a helper. */
  lemma FailingContextStillGivesRepository(error: Error)
    ensures UmbracoContext(New(Failure(error))).None?
    ensures ContentRepo(New(Failure(error))) == PylonRepository.New()
    ensures PylonRepository.Umbraco(ContentRepo(New(Failure(error)))).Failure?
  {
  }

  /**
   * Both constructors check files, so `CurrentTemplate` renders only views
   * the framework finds, and an optional (empty) action makes it throw.
   */
  lemma ConstructedControllerChecksViews<M>(context: UmbracoContext, frameworkContext: Result<UmbracoContext>, routeValues: RouteValues,
                                            findView: ViewLocator, model: M)
    requires Find(routeValues, "action").Some?
    ensures var c := NewWithContext(context).(controllerContext := Some(ControllerContext(None, routeValues)));
            var template := RouteValueText(Find(routeValues, "action").value);
            CurrentTemplate(c, findView, model)
            == if template == "" then Failure(ArgumentNullOrEmpty("viewName"))
               else Success(if findView(c.controllerContext.value, template) then ViewResult(template, model) else ContentResult(""))
    ensures var c := New(frameworkContext).(controllerContext := Some(ControllerContext(None, routeValues)));
            var template := RouteValueText(Find(routeValues, "action").value);
            CurrentTemplate(c, findView, model)
            == if template == "" then Failure(ArgumentNullOrEmpty("viewName"))
               else Success(if findView(c.controllerContext.value, template) then ViewResult(template, model) else ContentResult(""))
    ensures EnsurePhysicalViewExists(New(frameworkContext), RouteValueText(Find(routeValues, "action").value), findView)
            == Failure(ArgumentNull("controllerContext"))
  {
  }
}
