/**
 * `RouteTestingHelper`: resolves a request against Web API routes and checks
 * the result with `ShouldMapTo`.
 *
 * The framework's routing is the `RouteTable` supplied by the caller: the
 * route data for a request (null when no route matches) and the controller
 * and action selection for that data, which may throw an
 * `HttpResponseException`.
 */
module RouteTesting {
  import opened Wrappers
  import opened Text
  import opened Mvc

  datatype HttpMethod = Get | Post | Put | Delete | Head | Options | OtherMethod(name: string)

  /** What the controller and action selectors pick: the controller type's name, the action and its parameter names. */
  datatype ActionSelection = ActionSelection(controllerName: string, actionName: string, parameterNames: seq<string>)

  /** The routes an application registers, applied to a request. */
  datatype RouteTable = RouteTable(
    getRouteData: (HttpMethod, string) -> Option<RouteValues>,
    select: (HttpMethod, string, RouteValues) -> Result<ActionSelection>)

  /** `RouteInfo`: the controller type's name, the action, and the parameter list. */
  datatype RouteInfo = RouteInfo(controller: string, action: string, parameters: seq<string>)

  /** The `RouteInfo` constructor: the parameter list starts empty. */
  function NewRouteInfo(controller: string, action: string): (r: RouteInfo)
    ensures r.controller == controller && r.action == action && r.parameters == []
  {
    RouteInfo(controller, action, [])
  }

  /** Adding parameter names one at a time, as `RouteRequest`'s loop does. */
  function AddParameters(info: RouteInfo, names: seq<string>): RouteInfo
    decreases |names|
  {
    if names == [] then info
    else AddParameters(info.(parameters := info.parameters + [names[0]]), names[1..])
  }

  /** The loop appends the names in order and touches nothing else. */
  lemma {:induction false} AddParametersAppends(info: RouteInfo, names: seq<string>)
    ensures AddParameters(info, names) == info.(parameters := info.parameters + names)
    decreases |names|
  {
    if names != [] {
      var next := info.(parameters := info.parameters + [names[0]]);
      AddParametersAppends(next, names[1..]);
      assert next.parameters + names[1..] == info.parameters + names;
    }
  }

  /** `RemoveOptionalRoutingParameters`: the route values without the entries holding the optional marker. */
  function RemoveOptional(values: RouteValues): (r: RouteValues)
    ensures forall e :: e in r <==> e in values && e.1 != OptionalParameter
    ensures |r| <= |values|
  {
    if values == [] then []
    else if values[0].1 == OptionalParameter then RemoveOptional(values[1..])
    else [values[0]] + RemoveOptional(values[1..])
  }

  /** Removal works entry by entry: on a split dictionary it is the removal on each part, so order is kept. */
  lemma {:induction false} RemoveOptionalDistributes(a: RouteValues, b: RouteValues)
    ensures RemoveOptional(a + b) == RemoveOptional(a) + RemoveOptional(b)
    decreases |a|
  {
    if a != [] {
      assert (a + b)[1..] == a[1..] + b;
      RemoveOptionalDistributes(a[1..], b);
    } else {
      assert a + b == b;
    }
  }

  /** Removing the markers twice removes nothing more. */
  lemma {:induction false} RemoveOptionalIsIdempotent(values: RouteValues)
    ensures RemoveOptional(RemoveOptional(values)) == RemoveOptional(values)
    decreases |values|
  {
    if values != [] {
      RemoveOptionalIsIdempotent(values[1..]);
    }
  }

  /**
   * `RouteRequest`: the request's route data with the optional markers
   * removed, then the selected controller and action with the action's
   * parameter names in order. No matching route leaves the route data null,
   * and reading it throws.
   */
  function RouteRequest(table: RouteTable, verb: HttpMethod, url: string): (r: Result<RouteInfo>)
    ensures table.getRouteData(verb, url).None? ==> r == Failure(NullReference)
    ensures table.getRouteData(verb, url).Some? ==>
              var selection := table.select(verb, url, RemoveOptional(table.getRouteData(verb, url).value));
              && (selection.Failure? ==> r == Failure(selection.error))
              && (selection.Success? ==>
                    r == Success(RouteInfo(selection.value.controllerName, selection.value.actionName, selection.value.parameterNames)))
  {
    match table.getRouteData(verb, url)
    case None => Failure(NullReference)
    case Some(values) =>
      var selection :- table.select(verb, url, RemoveOptional(values));
      var info := NewRouteInfo(selection.controllerName, selection.actionName);
      AddParametersAppends(info, selection.parameterNames);
      assert info.parameters + selection.parameterNames == selection.parameterNames;
      Success(AddParameters(info, selection.parameterNames))
  }

  function ResponseErrorMessage(url: string, reason: string): string {
    "The specified route '" + url + "' generated an HTTP Response Error '" + reason + "'"
  }

  function ControllerMessage(url: string, controllerName: string): string {
    "The specified route '" + url + "' does not match the expected controller '" + controllerName + "'"
  }

  function ActionMessage(url: string, action: string): string {
    "The specified route '" + url + "' does not match the expected action '" + action + "'"
  }

  function CountMessage(url: string, expected: nat, actual: nat): string {
    "The specified route '" + url + "' does not have enough parameters - expected '" + NatToString(expected) + "' but was '" + NatToString(actual) + "'"
  }

  function MissingParameterMessage(url: string, name: string): string {
    "The specified route '" + url + "' does not contain the expected parameter '" + name + "'"
  }

  /** The first expected name the route lacks, in the order given. */
  function FirstMissing(names: seq<string>, parameters: seq<string>): (r: Option<string>)
    ensures r.None? <==> forall i :: 0 <= i < |names| ==> names[i] in parameters
    ensures r.Some? ==> exists i :: 0 <= i < |names| && names[i] == r.value && r.value !in parameters
                          && forall j :: 0 <= j < i ==> names[j] in parameters
  {
    if names == [] then None
    else if names[0] !in parameters then Some(names[0])
    else
      var rest := FirstMissing(names[1..], parameters);
      assert rest.Some? ==> exists i :: 0 <= i < |names[1..]| && names[1..][i] == rest.value && rest.value !in parameters
                              && forall j :: 0 <= j < i ==> names[1..][j] in parameters;
      rest
  }

  /**
   * `ShouldMapTo`: resolves the request and throws, in this order, on an
   * HTTP response error, a different controller (compared exactly), a
   * different action (compared ignoring case), too few parameters, or an
   * expected parameter the route lacks. Other failures of routing escape as
   * they are.
   */
  function ShouldMapTo(url: string, table: RouteTable, controllerName: string, action: string,
                       verb: HttpMethod, parameterNames: seq<string>): (r: Result<()>)
    ensures RouteRequest(table, verb, url).Failure? ==> r.Failure?
    ensures RouteRequest(table, verb, url).Failure? && !RouteRequest(table, verb, url).error.HttpResponseFailure? ==>
              r == Failure(RouteRequest(table, verb, url).error)
    ensures RouteRequest(table, verb, url).Success? && r.Failure? ==> r.error.Raised?
    ensures r.Success? ==> RouteRequest(table, verb, url).Success? && RouteRequest(table, verb, url).value.controller == controllerName
  {
    match RouteRequest(table, verb, url)
    case Failure(HttpResponseFailure(reason)) => Failure(Raised(ResponseErrorMessage(url, reason)))
    case Failure(other) => Failure(other)
    case Success(route) =>
      if route.controller != controllerName then Failure(Raised(ControllerMessage(url, controllerName)))
      else if Lower(route.action) != Lower(action) then Failure(Raised(ActionMessage(url, action)))
      else if parameterNames == [] then Success(())
      else if |route.parameters| < |parameterNames| then Failure(Raised(CountMessage(url, |parameterNames|, |route.parameters|)))
      else match FirstMissing(parameterNames, route.parameters)
        case Some(name) => Failure(Raised(MissingParameterMessage(url, name)))
        case None => Success(())
  }

  /** The overloads without a verb: a GET request. */
  function ShouldMapToGet(url: string, table: RouteTable, controllerName: string, action: string, parameterNames: seq<string>): (r: Result<()>)
    ensures r == ShouldMapTo(url, table, controllerName, action, Get, parameterNames)
  {
    ShouldMapTo(url, table, controllerName, action, Get, parameterNames)
  }

  /** What a route that `ShouldMapTo` accepts looks like, stated without its checks' order. */
  predicate MapsTo(route: RouteInfo, controllerName: string, action: string, parameterNames: seq<string>) {
    && route.controller == controllerName
    && CaseInsensitiveEqual(route.action, action)
    && (parameterNames == [] ||
          (|route.parameters| >= |parameterNames| && forall i :: 0 <= i < |parameterNames| ==> parameterNames[i] in route.parameters))
  }

  /** `ShouldMapTo` passes exactly when routing succeeds and the route maps to what was expected. */
  lemma ShouldMapToIsMapsTo(url: string, table: RouteTable, controllerName: string, action: string,
                            verb: HttpMethod, parameterNames: seq<string>)
    ensures ShouldMapTo(url, table, controllerName, action, verb, parameterNames).Success?
            <==> RouteRequest(table, verb, url).Success?
                 && MapsTo(RouteRequest(table, verb, url).value, controllerName, action, parameterNames)
  {
  }

  /**
   * The checks report in a fixed order: a wrong controller wins over
   * everything after it, and a wrong action over the parameter checks.
   */
  lemma ShouldMapToReportsInOrder(url: string, table: RouteTable, controllerName: string, action: string,
                                  verb: HttpMethod, parameterNames: seq<string>)
    requires RouteRequest(table, verb, url).Success?
    ensures var route := RouteRequest(table, verb, url).value;
            route.controller != controllerName ==>
              ShouldMapTo(url, table, controllerName, action, verb, parameterNames) == Failure(Raised(ControllerMessage(url, controllerName)))
    ensures var route := RouteRequest(table, verb, url).value;
            route.controller == controllerName && !CaseInsensitiveEqual(route.action, action) ==>
              ShouldMapTo(url, table, controllerName, action, verb, parameterNames) == Failure(Raised(ActionMessage(url, action)))
    ensures var route := RouteRequest(table, verb, url).value;
            route.controller == controllerName && CaseInsensitiveEqual(route.action, action) && parameterNames != []
            && |route.parameters| < |parameterNames| ==>
              ShouldMapTo(url, table, controllerName, action, verb, parameterNames)
              == Failure(Raised(CountMessage(url, |parameterNames|, |route.parameters|)))
  {
  }

  /** An HTTP response error during routing is reported with its reason phrase. */
  lemma ResponseErrorIsReported(url: string, table: RouteTable, controllerName: string, action: string,
                                verb: HttpMethod, parameterNames: seq<string>, reason: string)
    requires RouteRequest(table, verb, url) == Failure(HttpResponseFailure(reason))
    ensures ShouldMapTo(url, table, controllerName, action, verb, parameterNames) == Failure(Raised(ResponseErrorMessage(url, reason)))
  {
  }

  /**
   * The count check compares lengths, so naming one parameter twice fails
   * against a route that has it once, though every name is present.
   */
  lemma RepeatedNameFailsCountCheck(url: string, table: RouteTable, verb: HttpMethod)
    requires RouteRequest(table, verb, url) == Success(RouteInfo("HomeController", "Index", ["id"]))
    ensures ShouldMapTo(url, table, "HomeController", "index", verb, ["id", "id"]) == Failure(Raised(CountMessage(url, 2, 1)))
    ensures ShouldMapTo(url, table, "HomeController", "index", verb, ["id"]) == Success(())
  {
    assert Lower("Index") == Lower("index");
  }
}
