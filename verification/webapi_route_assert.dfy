/**
 * `WebApiRouteAsserter`: turns a relative URL into a full dummy URL and
 * asserts that `ShouldMapTo` does, or does not, complete for it. The
 * assertion framework is modelled by the verdict it reaches.
 */
module WebApiRouteAssert {
  import opened Wrappers
  import opened Text
  import opened RouteTesting

  const DummyHost: string := "http://my.site.local/"

  /** The verdict of one assertion: it passes, or fails with its message. */
  datatype Verdict = Pass | Fail(message: string)

  /** `GetFullDummyUrl`: at most one leading "~" and then at most one leading "/" dropped, the rest after the dummy host. */
  function GetFullDummyUrl(urlElement: string): (r: string)
    ensures StartsWith(r, DummyHost)
    ensures StartsWith(urlElement, "~/") ==> r == DummyHost + urlElement[2..]
    ensures StartsWith(urlElement, "~") && !StartsWith(urlElement[1..], "/") ==> r == DummyHost + urlElement[1..]
    ensures StartsWith(urlElement, "/") ==> r == DummyHost + urlElement[1..]
    ensures !StartsWith(urlElement, "~") && !StartsWith(urlElement, "/") ==> r == DummyHost + urlElement
  {
    var afterTilde := if StartsWith(urlElement, "~") then urlElement[1..] else urlElement;
    var rest := if StartsWith(afterTilde, "/") then afterTilde[1..] else afterTilde;
    assert StartsWith(urlElement, "~/") ==> urlElement[0] == '~' && urlElement[1] == '/' && afterTilde[1..] == urlElement[2..];
    assert StartsWith(urlElement, "/") ==> urlElement[0] == '/';
    DummyHost + rest
  }

  /** The three spellings of a relative URL give the same full URL, and later slashes are kept. */
  lemma DummyUrlExamples()
    ensures GetFullDummyUrl("~/home/") == "http://my.site.local/home/"
    ensures GetFullDummyUrl("/home/") == "http://my.site.local/home/"
    ensures GetFullDummyUrl("home/") == "http://my.site.local/home/"
    ensures GetFullDummyUrl("//x") == "http://my.site.local//x"
  {
  }

  /**
   * For a path that starts with neither "~" nor "/", the application-relative,
   * root-relative and plain spellings all give the host followed by the path.
   */
  lemma DummyUrlSpellingsAgree(path: string)
    requires !StartsWith(path, "~") && !StartsWith(path, "/")
    ensures GetFullDummyUrl(path) == DummyHost + path
    ensures GetFullDummyUrl("/" + path) == DummyHost + path
    ensures GetFullDummyUrl("~/" + path) == DummyHost + path
  {
    assert ("/" + path)[1..] == path;
    assert ("~/" + path)[1..] == "/" + path;
  }

  /** Whether `ShouldMapTo` completes for the dummy URL: any exception it throws counts as not mapping. */
  function Maps(urlElement: string, table: RouteTable, controller: string, action: string, verb: HttpMethod): (r: bool)
    ensures r <==> ShouldMapTo(GetFullDummyUrl(urlElement), table, controller, action, verb, []).Success?
  {
    ShouldMapTo(GetFullDummyUrl(urlElement), table, controller, action, verb, []).Success?
  }

  /** `AssertRouteIsValid`: passes iff the route maps; otherwise "Route not valid". The verb defaults to GET. */
  function AssertRouteIsValid(urlElement: string, table: RouteTable, controller: string, action: string, verb: HttpMethod := Get): (r: Verdict)
    ensures r == Pass <==> ShouldMapTo(GetFullDummyUrl(urlElement), table, controller, action, verb, []).Success?
    ensures r != Pass ==> r == Fail("Route not valid")
  {
    if Maps(urlElement, table, controller, action, verb) then Pass else Fail("Route not valid")
  }

  /** `AssertRouteIsInvalid`: passes iff the route does not map; otherwise "Route is valid and should not be". */
  function AssertRouteIsInvalid(urlElement: string, table: RouteTable, controller: string, action: string, verb: HttpMethod): (r: Verdict)
    ensures r == Pass <==> ShouldMapTo(GetFullDummyUrl(urlElement), table, controller, action, verb, []).Failure?
    ensures r != Pass ==> r == Fail("Route is valid and should not be")
  {
    if !Maps(urlElement, table, controller, action, verb) then Pass else Fail("Route is valid and should not be")
  }

  /** For the same inputs exactly one of the two assertions passes. */
  lemma ValidAndInvalidAreComplementary(urlElement: string, table: RouteTable, controller: string, action: string, verb: HttpMethod)
    ensures AssertRouteIsValid(urlElement, table, controller, action, verb).Pass?
            != AssertRouteIsInvalid(urlElement, table, controller, action, verb).Pass?
  {
  }

  /** A valid-route assertion passes exactly when the route maps to the controller and action, ignoring the action's case. */
  lemma ValidMeansMapsTo(urlElement: string, table: RouteTable, controller: string, action: string, verb: HttpMethod)
    ensures var url := GetFullDummyUrl(urlElement);
            AssertRouteIsValid(urlElement, table, controller, action, verb) == Pass
            <==> RouteRequest(table, verb, url).Success? && MapsTo(RouteRequest(table, verb, url).value, controller, action, [])
  {
    ShouldMapToIsMapsTo(GetFullDummyUrl(urlElement), table, controller, action, verb, []);
  }
}
