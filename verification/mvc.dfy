/**
 * The parts of ASP.NET MVC the controllers and route helpers touch: route
 * values, the controller context, the view lookup and action results, and the
 * rules the controllers share — the file-check guard, the default context
 * with its derived controller route name, and `CurrentTemplate`.
 */
module Mvc {
  import opened Wrappers
  import opened Text

  /** A route value: MVC's `UrlParameter.Optional` marker, or a value shown through its `ToString()`. */
  datatype RouteValue = OptionalParameter | Value(text: string)

  /**
   * `ToString()` of a route value; the optional marker prints as "", so the
   * text is empty for it as well as for an empty string value.
   */
  function RouteValueText(v: RouteValue): (r: string)
    ensures v.Value? ==> r == v.text
    ensures r == "" <==> v == OptionalParameter || v == Value("")
  {
    match v
    case OptionalParameter => ""
    case Value(text) => text
  }

  /** A `RouteValueDictionary`, in insertion order; its keys compare ignoring case. */
  type RouteValues = seq<(string, RouteValue)>

  /** The dictionary lookup: the value under a key equal to `key` ignoring case, null when there is none. */
  function Find(values: RouteValues, key: string): (r: Option<RouteValue>)
    ensures r.Some? <==> exists i :: 0 <= i < |values| && CaseInsensitiveEqual(values[i].0, key)
    ensures r.Some? ==> exists i :: 0 <= i < |values| && CaseInsensitiveEqual(values[i].0, key) && values[i].1 == r.value
  {
    if values == [] then None
    else if CaseInsensitiveEqual(values[0].0, key) then Some(values[0].1)
    else
      var rest := Find(values[1..], key);
      assert rest.Some? ==> exists i :: 0 <= i < |values[1..]| && CaseInsensitiveEqual(values[1..][i].0, key) && values[1..][i].1 == rest.value;
      rest
  }

  predicate ContainsKey(values: RouteValues, key: string) {
    Find(values, key).Some?
  }

  /** The keys of a route value dictionary, in order. */
  function Keys(values: RouteValues): (r: seq<string>)
    ensures |r| == |values|
    ensures forall i :: 0 <= i < |values| ==> r[i] == values[i].0
  {
    seq(|values|, i requires 0 <= i < |values| => values[i].0)
  }

  /** The ambient `HttpContext.Current` a default context wraps. */
  datatype HttpContext = HttpContext(requestPath: string)

  /** A `ControllerContext`: the wrapped HTTP context (possibly null) and the route data's values. */
  datatype ControllerContext = ControllerContext(http: Option<HttpContext>, routeValues: RouteValues)

  /**
   * `ViewEngines.Engines.FindView(context, template, null).View != null` for
   * a non-null context and a non-empty view name, supplied by the view engine.
   */
  type ViewLocator = (ControllerContext, string) -> bool

  /**
   * `FindView(context, template, null)`: the view collection rejects a null
   * controller context, then a null or empty view name, before the engines
   * are asked whether the view exists.
   */
  function FindView(context: Option<ControllerContext>, template: string, findView: ViewLocator): (r: Result<bool>)
    ensures r.Failure? <==> context.None? || template == ""
    ensures context.None? ==> r == Failure(ArgumentNull("controllerContext"))
    ensures context.Some? && template == "" ==> r == Failure(ArgumentNullOrEmpty("viewName"))
    ensures r.Success? ==> r.value == findView(context.value, template)
  {
    if context.None? then Failure(ArgumentNull("controllerContext"))
    else if template == "" then Failure(ArgumentNullOrEmpty("viewName"))
    else Success(findView(context.value, template))
  }

  /**
   * The file-check guard: any template passes with checking off; otherwise
   * the view collection decides, and its rejections propagate.
   */
  function ViewExists(enableFileCheck: bool, context: Option<ControllerContext>, template: string, findView: ViewLocator): (r: Result<bool>)
    ensures !enableFileCheck ==> r == Success(true)
    ensures enableFileCheck ==> r == FindView(context, template, findView)
    ensures r.Failure? <==> enableFileCheck && (context.None? || template == "")
  {
    if !enableFileCheck then Success(true) else FindView(context, template, findView)
  }

  /** The controller's route name: the type name lowercased, every "controller" removed. */
  function ControllerRouteName(typeName: string): (r: string)
    ensures NoUpper(r)
    ensures |r| <= |typeName|
  {
    LowerHasNoUpper(typeName);
    RemoveAllKeepsNoUpper(Lower(typeName), "controller");
    RemoveAll(Lower(typeName), "controller")
  }

  /**
   * The context `SetDefaultContext` builds: fresh route data given a
   * "controller" value unless it already holds one under either spelling —
   * which fresh route data never does — wrapped with the current HTTP context.
   * Building the context builds a request context, which rejects a null HTTP
   * context with an `ArgumentNullException` for "httpContext".
   */
  function DefaultContext(current: Option<HttpContext>, typeName: string): (r: Result<ControllerContext>)
    ensures current.None? <==> r.Failure?
    ensures current.None? ==> r.error == ArgumentNull("httpContext")
    ensures r.Success? ==> r.value.http == current
    ensures r.Success? ==> r.value.routeValues == [("controller", Value(ControllerRouteName(typeName)))]
  {
    var blank: RouteValues := [];
    var routeValues := if !ContainsKey(blank, "controller") && !ContainsKey(blank, "Controller")
                       then blank + [("controller", Value(ControllerRouteName(typeName)))]
                       else blank;
    if current.None? then Failure(ArgumentNull("httpContext"))
    else Success(ControllerContext(current, routeValues))
  }

  /**
   * The context after `SetDefaultContext`: an existing one is kept whatever the
   * HTTP context; otherwise the default is built, which fails without one.
   */
  function EnsureContext(context: Option<ControllerContext>, current: Option<HttpContext>, typeName: string): (r: Result<ControllerContext>)
    ensures context.Some? ==> r == Success(context.value)
    ensures context.None? ==> r == DefaultContext(current, typeName)
    ensures r.Failure? <==> context.None? && current.None?
  {
    if context.Some? then Success(context.value) else DefaultContext(current, typeName)
  }

  /** The `IViewStringRenderer` a controller holds: the library's default, or another implementation. */
  datatype ViewRenderer = DefaultViewStringRenderer | OtherRenderer(name: string)

  /** `Render(viewName, model, controller)`, supplied by the renderer; the controller is seen through its context. */
  type Render<-M> = (ViewRenderer, string, M, ControllerContext) -> string

  /**
   * The rendering step both controllers' `PartialAsString` share, after the
   * default context has been sought: a failure to build it propagates, a null
   * renderer is a null reference, and otherwise the renderer renders with it.
   */
  function RenderPartial<M>(context: Result<ControllerContext>, renderer: Option<ViewRenderer>, viewName: string, model: M, render: Render<M>): (r: Result<string>)
  {
    if context.Failure? then Failure(context.error)
    else if renderer.None? then Failure(NullReference)
    else Success(render(renderer.value, viewName, model, context.value))
  }

  /** An MVC action result: `Content(text)`, or `View(name, model)`. */
  datatype ActionResult<M> = ContentResult(content: string) | ViewResult(viewName: string, model: M)

  /**
   * `CurrentTemplate(model)`: the route's "action" value names the template;
   * an empty content result when the guard rejects it, otherwise the view
   * with the model. A missing controller context or "action" value is a null
   * reference, and a guard that throws — as the view collection does for an
   * empty name — propagates.
   */
  function CurrentTemplate<M>(context: Option<ControllerContext>, viewExists: string -> Result<bool>, model: M): (r: Result<ActionResult<M>>)
    ensures context.None? ==> r == Failure(NullReference)
    ensures context.Some? && Find(context.value.routeValues, "action").None? ==> r == Failure(NullReference)
    ensures context.Some? && Find(context.value.routeValues, "action").Some? ==>
              var template := RouteValueText(Find(context.value.routeValues, "action").value);
              && (viewExists(template).Failure? ==> r == Failure(viewExists(template).error))
              && (viewExists(template) == Success(false) ==> r == Success(ContentResult("")))
              && (viewExists(template) == Success(true) ==> r == Success(ViewResult(template, model)))
  {
    if context.None? then Failure(NullReference)
    else
      match Find(context.value.routeValues, "action")
      case None => Failure(NullReference)
      case Some(action) =>
        var template := RouteValueText(action);
        match viewExists(template)
        case Failure(e) => Failure(e)
        case Success(found) => if !found then Success(ContentResult("")) else Success(ViewResult(template, model))
  }

  /**
   * An optional "action" value prints as "", so with checking on the view
   * collection rejects it and `CurrentTemplate` throws rather than answering.
   */
  lemma OptionalActionIsRejected<M>(http: Option<HttpContext>, routeValues: RouteValues, findView: ViewLocator, model: M)
    requires Find(routeValues, "action") == Some(OptionalParameter)
    ensures var context := Some(ControllerContext(http, routeValues));
            CurrentTemplate(context, t => ViewExists(true, context, t, findView), model) == Failure(ArgumentNullOrEmpty("viewName"))
  {
  }

  /** The name derivation on the sample inner controller's type name. */
  lemma SampleInnerControllerRouteName()
    ensures ControllerRouteName("SampleInnerController") == "sampleinner"
  {
    assert Lower("SampleInnerController") == "sampleinner" + "controller";
    forall i | 0 <= i < |"sampleinner"|
      ensures !OccursAt("sampleinner" + "controller", "controller", i)
    {
      assert ("sampleinner" + "controller")[i] != 'c';
    }
    RemoveAllKeepsPrefix("sampleinner", "controller", "controller");
    assert RemoveAll("controller", "controller") == RemoveAll("", "controller");
  }

  /**
   * One scan of `Replace` does not revisit text a removal joins, so a route
   * name can still contain "controller".
   */
  lemma RouteNameCanStillContainController()
    ensures ControllerRouteName("ConControllerTroller") == "controller"
  {
    var lowered := Lower("ConControllerTroller");
    assert lowered == "con" + "controllertroller" by {
    }
    assert ControllerRouteName("ConControllerTroller") == RemoveAll(lowered, "controller");
    RemovalJoinsController();
  }

  /** Removing the one occurrence in "concontrollertroller" joins "con" and "troller". */
  lemma RemovalJoinsController()
    ensures RemoveAll("con" + "controllertroller", "controller") == "controller"
  {
    var s := "con" + "controllertroller";
    assert s[3] == 'c' && s[1] == 'o' && s[2] == 'n';
    MismatchAt(s, "controller", 0, 3);
    MismatchAt(s, "controller", 1, 0);
    MismatchAt(s, "controller", 2, 0);
    RemoveAllKeepsPrefix("con", "controllertroller", "controller");
    assert "controllertroller"[..10] == "controller";
    assert "controllertroller"[10..] == "troller";
  }

  /** A name without "controller" in its lowercase form is only lowercased. */
  lemma RouteNameOfPlainName(typeName: string)
    ensures ControllerRouteName(typeName) == Lower(typeName) <==> !Occurs(Lower(typeName), "controller")
  {
    RemoveAllIsIdentityIff(Lower(typeName), "controller");
  }

  /** The default context, when one can be built, answers the route name under either spelling of the key. */
  lemma DefaultContextNamesController(current: HttpContext, typeName: string)
    ensures DefaultContext(Some(current), typeName).Success?
    ensures Find(DefaultContext(Some(current), typeName).value.routeValues, "controller") == Some(Value(ControllerRouteName(typeName)))
    ensures Find(DefaultContext(Some(current), typeName).value.routeValues, "Controller") == Some(Value(ControllerRouteName(typeName)))
    ensures Find(DefaultContext(Some(current), typeName).value.routeValues, "action").None?
  {
    assert Lower("Controller") == Lower("controller");
    assert Lower("action") != Lower("controller") by {
      assert Lower("action")[0] == 'a';
    }
  }
}
