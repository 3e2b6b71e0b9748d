/**
 * `MvcRouteAsserter`: assertions about MVC routes, issued to a pluggable
 * assertion framework. The model records the assertions a call issues and
 * runs them as a framework that throws on the first failing one does.
 *
 * The route table is the caller-supplied `RouteLookup`: the route data for a
 * mocked request to a URL with a verb, null when no route matches. The
 * properties of a route-properties object are given in declaration order,
 * each with its value, null or a string.
 */
module MvcRouteAssert {
  import opened Wrappers
  import opened Text
  import opened Mvc
  import Delimited

  datatype HttpVerb = Get | Post | Put | Delete | Head | Patch | Options

  type RouteLookup = (string, HttpVerb) -> Option<RouteValues>

  /** A route-properties object: its properties' names and values, in declaration order. */
  type RouteProperties = seq<(string, Option<string>)>

  /** An assertion issued to the framework. */
  datatype Assertion =
    | IsNotNull(present: bool, message: string)
    | IsNull(present: bool, message: string)
    | AreCaseInsensitiveEqual(expected: Option<string>, actual: Option<RouteValue>, message: string)

  /** The verdict of a run: every assertion passed, or the message of the first that failed. */
  datatype Verdict = Pass | Fail(message: string)

  /**
   * `IsCaseInsensitiveEqualTo`: two nulls are equal, null equals no value,
   * and two strings are equal ignoring case. The optional-parameter marker is
   * not a string and equals no expected value.
   */
  predicate ValueMatches(expected: Option<string>, actual: Option<RouteValue>) {
    match (expected, actual)
    case (None, None) => true
    case (Some(e), Some(Value(a))) => CaseInsensitiveEqual(e, a)
    case _ => false
  }

  /**
   * The comparison ignores case and nothing else, is symmetric on strings,
   * lets null match only null, and never matches the optional marker.
   */
  lemma ValueMatchesIgnoresCase(x: string, y: string)
    ensures ValueMatches(Some(x), Some(Value(x)))
    ensures ValueMatches(Some(Upper(x)), Some(Value(Lower(x))))
    ensures ValueMatches(Some(x), Some(Value(y))) == ValueMatches(Some(y), Some(Value(x)))
    ensures ValueMatches(None, None) && !ValueMatches(Some(x), None) && !ValueMatches(None, Some(Value(x)))
    ensures !ValueMatches(Some(x), Some(OptionalParameter)) && !ValueMatches(None, Some(OptionalParameter))
  {
    forall i | 0 <= i < |x|
      ensures Lower(Upper(x))[i] == Lower(Lower(x))[i]
    {
      assert LowerChar(UpperChar(x[i])) == LowerChar(LowerChar(x[i]));
    }
  }

  predicate Holds(a: Assertion) {
    match a
    case IsNotNull(present, _) => present
    case IsNull(present, _) => !present
    case AreCaseInsensitiveEqual(expected, actual, _) => ValueMatches(expected, actual)
  }

  function MessageOf(a: Assertion): string {
    a.message
  }

  /** Running assertions under a framework that throws on failure: the first failing one decides. */
  function Run(assertions: seq<Assertion>): (r: Verdict)
    ensures r == Pass <==> forall i :: 0 <= i < |assertions| ==> Holds(assertions[i])
    ensures r.Fail? ==> exists i :: 0 <= i < |assertions| && !Holds(assertions[i]) && r.message == MessageOf(assertions[i])
                          && forall j :: 0 <= j < i ==> Holds(assertions[j])
  {
    if assertions == [] then Pass
    else if !Holds(assertions[0]) then Fail(MessageOf(assertions[0]))
    else
      var rest := Run(assertions[1..]);
      assert rest.Fail? ==> exists i :: 0 <= i < |assertions[1..]| && !Holds(assertions[1..][i]) && rest.message == MessageOf(assertions[1..][i])
                              && forall j :: 0 <= j < i ==> Holds(assertions[1..][j]);
      rest
  }

  /**
   * The assertions `AssertRouteIsValid` issues: a route was found; then the
   * controller, the action, and — only for a non-empty expected area — the
   * area, each compared ignoring case. Without a route the first assertion
   * throws and nothing after it runs.
   */
  function ValidRouteAssertions(routeData: Option<RouteValues>, controller: string, action: string, area: string): (r: seq<Assertion>)
    ensures routeData.None? ==> r == [IsNotNull(false, "Should have found the route")]
    ensures routeData.Some? ==>
              && |r| == (if area == "" then 3 else 4)
              && r[0] == IsNotNull(true, "Should have found the route")
              && r[1] == AreCaseInsensitiveEqual(Some(controller), Find(routeData.value, "controller"), "Expected a different controller")
              && r[2] == AreCaseInsensitiveEqual(Some(action), Find(routeData.value, "action"), "Expected a different action")
              && (area != "" ==> r[3] == AreCaseInsensitiveEqual(Some(area), Find(routeData.value, "area"), "Expected a different area"))
  {
    match routeData
    case None => [IsNotNull(false, "Should have found the route")]
    case Some(values) =>
      [ IsNotNull(true, "Should have found the route"),
        AreCaseInsensitiveEqual(Some(controller), Find(values, "controller"), "Expected a different controller"),
        AreCaseInsensitiveEqual(Some(action), Find(values, "action"), "Expected a different action") ]
      + (if area != "" then [AreCaseInsensitiveEqual(Some(area), Find(values, "area"), "Expected a different area")] else [])
  }

  /** `AssertRouteIsValid(url, routes, controller, action, area = "", verb = GET)`. */
  function AssertRouteIsValid(routes: RouteLookup, urlElement: string, controller: string, action: string,
                              area: string := "", verb: HttpVerb := Get): (r: Verdict)
    ensures r == Pass <==>
              var routeData := routes(urlElement, verb);
              && routeData.Some?
              && ValueMatches(Some(controller), Find(routeData.value, "controller"))
              && ValueMatches(Some(action), Find(routeData.value, "action"))
              && (area != "" ==> ValueMatches(Some(area), Find(routeData.value, "area")))
    ensures routes(urlElement, verb).None? ==> r == Fail("Should have found the route")
  {
    ValidRouteVerdict(routes(urlElement, verb), controller, action, area);
    Run(ValidRouteAssertions(routes(urlElement, verb), controller, action, area))
  }

  /** The message for a property that is missing or differs. */
  function PropertyError(name: string): string {
    "The property '" + name + "' is not equal to the expected value or is not present"
  }

  /** The assertion issued for property `p`. */
  function PropertyAssertion(values: RouteValues, p: (string, Option<string>)): Assertion {
    AreCaseInsensitiveEqual(p.1, Find(values, p.0), PropertyError(p.0))
  }

  /** The loop's test as written: the key is present and its value matches. */
  predicate PresentAndEqual(values: RouteValues, p: (string, Option<string>)) {
    ContainsKey(values, p.0) && ValueMatches(p.1, Find(values, p.0))
  }

  /** Property `i` is the first one failing the present-and-equal test. */
  predicate FirstNotPresentAndEqual(values: RouteValues, properties: RouteProperties, i: int) {
    && 0 <= i < |properties|
    && !PresentAndEqual(values, properties[i])
    && forall j :: 0 <= j < i ==> PresentAndEqual(values, properties[j])
  }

  /** There is at most one first property failing the test. */
  lemma FirstNotPresentAndEqualIsUnique(values: RouteValues, properties: RouteProperties, i: int, k: int)
    requires FirstNotPresentAndEqual(values, properties, i) && FirstNotPresentAndEqual(values, properties, k)
    ensures i == k
  {
  }

  /**
   * The route-properties loop as written: the first property failing the
   * present-and-equal test gets one assertion, and the loop stops there.
   */
  function PropertyAssertionsAsWritten(values: RouteValues, properties: RouteProperties): (r: seq<Assertion>)
    ensures |r| <= 1
    ensures r == [] <==> forall i :: 0 <= i < |properties| ==> PresentAndEqual(values, properties[i])
    ensures r != [] ==> exists i :: FirstNotPresentAndEqual(values, properties, i) && r == [PropertyAssertion(values, properties[i])]
  {
    if properties == [] then []
    else if !PresentAndEqual(values, properties[0]) then
      assert FirstNotPresentAndEqual(values, properties, 0);
      [PropertyAssertion(values, properties[0])]
    else
      var rest := PropertyAssertionsAsWritten(values, properties[1..]);
      assert rest != [] ==> exists i :: FirstNotPresentAndEqual(values, properties, i) && rest == [PropertyAssertion(values, properties[i])] by {
        if rest != [] {
          var i :| FirstNotPresentAndEqual(values, properties[1..], i) && rest == [PropertyAssertion(values, properties[1..][i])];
          assert properties[i + 1] == properties[1..][i];
          forall j | 0 <= j < i + 1
            ensures PresentAndEqual(values, properties[j])
          {
            if j > 0 {
              assert properties[j] == properties[1..][j - 1];
            }
          }
          assert FirstNotPresentAndEqual(values, properties, i + 1);
        }
      }
      rest
  }

  /**
   * The loop as written, run: it passes when every property is present and
   * equal, and otherwise exactly when the first property failing that test
   * still matches — a null expectation for a missing key — failing on that
   * property's message when it does not.
   */
  lemma PropertyVerdictAsWritten(values: RouteValues, properties: RouteProperties)
    ensures (forall i :: 0 <= i < |properties| ==> PresentAndEqual(values, properties[i])) ==>
              Run(PropertyAssertionsAsWritten(values, properties)) == Pass
    ensures forall i :: FirstNotPresentAndEqual(values, properties, i) ==>
              if ValueMatches(properties[i].1, Find(values, properties[i].0))
              then Run(PropertyAssertionsAsWritten(values, properties)) == Pass
              else Run(PropertyAssertionsAsWritten(values, properties)) == Fail(PropertyError(properties[i].0))
  {
    var r := PropertyAssertionsAsWritten(values, properties);
    forall i | FirstNotPresentAndEqual(values, properties, i)
      ensures if ValueMatches(properties[i].1, Find(values, properties[i].0))
              then Run(r) == Pass
              else Run(r) == Fail(PropertyError(properties[i].0))
    {
      var k :| FirstNotPresentAndEqual(values, properties, k) && r == [PropertyAssertion(values, properties[k])];
      FirstNotPresentAndEqualIsUnique(values, properties, i, k);
      assert r[0] == PropertyAssertion(values, properties[i]);
    }
  }

  /**
   * The loop as intended: the first property whose value does not match —
   * a missing key reading as null — gets its (failing) assertion; properties
   * that match are all passed over.
   */
  function PropertyAssertions(values: RouteValues, properties: RouteProperties): (r: seq<Assertion>)
    ensures |r| <= 1
    ensures r == [] <==> forall i :: 0 <= i < |properties| ==> ValueMatches(properties[i].1, Find(values, properties[i].0))
    ensures r != [] ==> !Holds(r[0])
  {
    if properties == [] then []
    else if !ValueMatches(properties[0].1, Find(values, properties[0].0)) then [PropertyAssertion(values, properties[0])]
    else PropertyAssertions(values, properties[1..])
  }

  /**
   * `AssertRouteIsValid(url, routes, controller, action, area, verb,
   * routeProperties)` with the route-properties loop as intended: a found
   * route passes exactly when its controller, action and area match and every
   * declared property matches; a null properties object checks the route
   * alone. A route that matches but has a property that does not fails on the
   * first such property.
   */
  function AssertRouteIsValidWithProperties(routes: RouteLookup, urlElement: string, controller: string, action: string,
                                            area: string, verb: HttpVerb, routeProperties: Option<RouteProperties>): (r: Verdict)
    ensures var routeData := routes(urlElement, verb);
            r == Pass
            <==> && Run(ValidRouteAssertions(routeData, controller, action, area)) == Pass
                 && (routeData.Some? && routeProperties.Some? ==>
                       forall i :: 0 <= i < |routeProperties.value| ==>
                         ValueMatches(routeProperties.value[i].1, Find(routeData.value, routeProperties.value[i].0)))
    ensures routes(urlElement, verb).None? ==> r == Fail("Should have found the route")
    ensures var routeData := routes(urlElement, verb);
            Run(ValidRouteAssertions(routeData, controller, action, area)) == Pass && routeData.Some? && routeProperties.Some? && r.Fail? ==>
              exists i :: 0 <= i < |routeProperties.value|
                          && !ValueMatches(routeProperties.value[i].1, Find(routeData.value, routeProperties.value[i].0))
                          && r == Fail(PropertyError(routeProperties.value[i].0))
  {
    var routeData := routes(urlElement, verb);
    var checks := ValidRouteAssertions(routeData, controller, action, area);
    ValidRouteVerdict(routeData, controller, action, area);
    if routeData.None? || routeProperties.None? then Run(checks)
    else
      RunConcat(checks, PropertyAssertions(routeData.value, routeProperties.value));
      PropertyVerdict(routeData.value, routeProperties.value);
      Run(checks + PropertyAssertions(routeData.value, routeProperties.value))
  }

  /**
   * The same assertion with the route-properties loop as written: a missing
   * route fails as before, and a route failing its own checks fails as it
   * would without properties. A matching route passes when its properties are
   * all present and equal; otherwise the first property failing that test
   * decides — the route passes exactly when that property still matches, and
   * fails on that property's message when it does not. Every route the
   * intended loop passes also passes here.
   */
  function AssertRouteIsValidWithPropertiesAsWritten(routes: RouteLookup, urlElement: string, controller: string, action: string,
                                                     area: string, verb: HttpVerb, routeProperties: Option<RouteProperties>): (r: Verdict)
    ensures routes(urlElement, verb).None? ==> r == Fail("Should have found the route")
    ensures r == Pass ==> Run(ValidRouteAssertions(routes(urlElement, verb), controller, action, area)) == Pass
    ensures var routeData := routes(urlElement, verb);
            Run(ValidRouteAssertions(routeData, controller, action, area)) == Pass
            && (routeData.Some? && routeProperties.Some? ==>
                  forall i :: 0 <= i < |routeProperties.value| ==> PresentAndEqual(routeData.value, routeProperties.value[i]))
            ==> r == Pass
    ensures var checks := Run(ValidRouteAssertions(routes(urlElement, verb), controller, action, area));
            checks.Fail? ==> r == checks
    ensures var routeData := routes(urlElement, verb);
            Run(ValidRouteAssertions(routeData, controller, action, area)) == Pass && routeData.Some? && routeProperties.Some? ==>
              forall i :: FirstNotPresentAndEqual(routeData.value, routeProperties.value, i) ==>
                if ValueMatches(routeProperties.value[i].1, Find(routeData.value, routeProperties.value[i].0))
                then r == Pass
                else r == Fail(PropertyError(routeProperties.value[i].0))
    ensures AssertRouteIsValidWithProperties(routes, urlElement, controller, action, area, verb, routeProperties) == Pass ==> r == Pass
  {
    var routeData := routes(urlElement, verb);
    var checks := ValidRouteAssertions(routeData, controller, action, area);
    ValidRouteVerdict(routeData, controller, action, area);
    if routeData.None? || routeProperties.None? then Run(checks)
    else
      RunConcat(checks, PropertyAssertionsAsWritten(routeData.value, routeProperties.value));
      PropertyVerdictAsWritten(routeData.value, routeProperties.value);
      RunConcat(checks, PropertyAssertions(routeData.value, routeProperties.value));
      if Run(PropertyAssertions(routeData.value, routeProperties.value)) == Pass then
        AsWrittenAcceptsWhatIntendedAccepts(routeData.value, routeProperties.value);
        Run(checks + PropertyAssertionsAsWritten(routeData.value, routeProperties.value))
      else Run(checks + PropertyAssertionsAsWritten(routeData.value, routeProperties.value))
  }

  /** Running two batches in turn: the first batch's failure wins, otherwise the second batch decides. */
  lemma {:induction false} RunConcat(a: seq<Assertion>, b: seq<Assertion>)
    ensures Run(a + b) == if Run(a).Fail? then Run(a) else Run(b)
    decreases |a|
  {
    if a != [] {
      assert (a + b)[0] == a[0];
      assert (a + b)[1..] == a[1..] + b;
      RunConcat(a[1..], b);
    } else {
      assert a + b == b;
    }
  }

  /** A valid-route assertion passes exactly when a route is found and its controller, action and area match. */
  lemma ValidRouteVerdict(routeData: Option<RouteValues>, controller: string, action: string, area: string)
    ensures Run(ValidRouteAssertions(routeData, controller, action, area)) == Pass
            <==> && routeData.Some?
                 && ValueMatches(Some(controller), Find(routeData.value, "controller"))
                 && ValueMatches(Some(action), Find(routeData.value, "action"))
                 && (area != "" ==> ValueMatches(Some(area), Find(routeData.value, "area")))
    ensures routeData.None? ==> Run(ValidRouteAssertions(routeData, controller, action, area)) == Fail("Should have found the route")
    ensures routeData.Some? && !ValueMatches(Some(controller), Find(routeData.value, "controller")) ==>
              Run(ValidRouteAssertions(routeData, controller, action, area)) == Fail("Expected a different controller")
    ensures routeData.Some? && ValueMatches(Some(controller), Find(routeData.value, "controller"))
            && !ValueMatches(Some(action), Find(routeData.value, "action")) ==>
              Run(ValidRouteAssertions(routeData, controller, action, area)) == Fail("Expected a different action")
  {
    var r := ValidRouteAssertions(routeData, controller, action, area);
    if routeData.Some? {
      assert Holds(r[0]);
    }
  }

  /**
   * With the route found and matching, the intended property check passes
   * exactly when every declared property matches, and otherwise reports the
   * first one that does not.
   */
  lemma {:induction false} PropertyVerdict(values: RouteValues, properties: RouteProperties)
    ensures Run(PropertyAssertions(values, properties)) == Pass
            <==> forall i :: 0 <= i < |properties| ==> ValueMatches(properties[i].1, Find(values, properties[i].0))
    ensures Run(PropertyAssertions(values, properties)).Fail? ==>
              exists i :: 0 <= i < |properties| && !ValueMatches(properties[i].1, Find(values, properties[i].0))
                          && Run(PropertyAssertions(values, properties)) == Fail(PropertyError(properties[i].0))
                          && forall j :: 0 <= j < i ==> ValueMatches(properties[j].1, Find(values, properties[j].0))
    decreases |properties|
  {
    if properties != [] && ValueMatches(properties[0].1, Find(values, properties[0].0)) {
      PropertyVerdict(values, properties[1..]);
      var r := Run(PropertyAssertions(values, properties));
      if r.Fail? {
        var i :| 0 <= i < |properties[1..]| && !ValueMatches(properties[1..][i].1, Find(values, properties[1..][i].0))
                 && r == Fail(PropertyError(properties[1..][i].0))
                 && forall j :: 0 <= j < i ==> ValueMatches(properties[1..][j].1, Find(values, properties[1..][j].0));
        assert properties[i + 1] == properties[1..][i];
        forall j | 0 <= j < i + 1
          ensures ValueMatches(properties[j].1, Find(values, properties[j].0))
        {
          if j > 0 {
            assert properties[j] == properties[1..][j - 1];
          }
        }
      }
    }
  }

  /** When every property matches, the intended check issues no assertion at all. */
  lemma AllMatchingIssuesNothing(values: RouteValues, properties: RouteProperties)
    requires forall i :: 0 <= i < |properties| ==> ValueMatches(properties[i].1, Find(values, properties[i].0))
    ensures PropertyAssertions(values, properties) == []
  {
  }

  /** The loop as written lets through every route the intended loop lets through. */
  lemma {:induction false} AsWrittenAcceptsWhatIntendedAccepts(values: RouteValues, properties: RouteProperties)
    requires Run(PropertyAssertions(values, properties)) == Pass
    ensures Run(PropertyAssertionsAsWritten(values, properties)) == Pass
    decreases |properties|
  {
    PropertyVerdict(values, properties);
    if properties != [] {
      assert ValueMatches(properties[0].1, Find(values, properties[0].0));
      if PresentAndEqual(values, properties[0]) {
        assert forall i :: 0 <= i < |properties[1..]| ==>
                 ValueMatches(properties[1..][i].1, Find(values, properties[1..][i].0)) by {
          forall i | 0 <= i < |properties[1..]|
            ensures ValueMatches(properties[1..][i].1, Find(values, properties[1..][i].0))
          {
            assert properties[1..][i] == properties[i + 1];
          }
        }
        PropertyVerdict(values, properties[1..]);
        AsWrittenAcceptsWhatIntendedAccepts(values, properties[1..]);
      }
    }
  }

  /**
   * As written, a property expected to be null and absent from the route
   * trips the loop's test, gets an assertion that passes, and stops the loop:
   * a later property that differs goes unchecked.
   */
  lemma NullExpectationHidesLaterMismatch()
    ensures var values: RouteValues := [("b", Value("y"))];
            var properties: RouteProperties := [("a", None), ("b", Some("x"))];
            && Run(PropertyAssertionsAsWritten(values, properties)) == Pass
            && Run(PropertyAssertions(values, properties)) == Fail(PropertyError("b"))
  {
    var values: RouteValues := [("b", Value("y"))];
    assert Find(values, "a").None? by {
      assert Lower("b") != Lower("a") by { assert Lower("b")[0] == 'b'; }
    }
    assert Find(values, "b") == Some(Value("y"));
    assert !CaseInsensitiveEqual("x", "y") by { assert Lower("x")[0] == 'x'; }
  }

  /** The header of the invalid-route message. */
  const FoundHeader: string := "Should not have found the route, but found..."

  /** One route value as the invalid-route message shows it. */
  function EntryLine(e: (string, RouteValue)): string {
    Upper(e.0) + ": " + RouteValueText(e.1)
  }

  function EntryLines(values: RouteValues): (r: seq<string>)
    ensures |r| == |values|
    ensures forall i :: 0 <= i < |values| ==> r[i] == EntryLine(values[i])
  {
    seq(|values|, i requires 0 <= i < |values| => EntryLine(values[i]))
  }

  /** The string builder's appends: "\n", the upper-cased key, ": ", the value, per entry. */
  function AppendEntries(values: RouteValues): string
    decreases |values|
  {
    if values == [] then "" else "\n" + EntryLine(values[0]) + AppendEntries(values[1..])
  }

  /** The invalid-route message: "" without a route, otherwise the header and one line per route value. */
  function InvalidRouteMessage(routeData: Option<RouteValues>): (r: string)
    ensures routeData.None? ==> r == ""
    ensures routeData.Some? ==> r == Delimited.Join([FoundHeader] + EntryLines(routeData.value), '\n')
  {
    match routeData
    case None => ""
    case Some(values) =>
      AppendIsJoin(FoundHeader, values);
      FoundHeader + AppendEntries(values)
  }

  lemma {:induction false} AppendIsJoin(head: string, values: RouteValues)
    ensures head + AppendEntries(values) == Delimited.Join([head] + EntryLines(values), '\n')
    decreases |values|
  {
    var pieces := [head] + EntryLines(values);
    if values == [] {
      assert pieces == [head];
    } else {
      var first := EntryLine(values[0]);
      var rest := AppendEntries(values[1..]);
      var tail := [first] + EntryLines(values[1..]);
      AppendIsJoin(first, values[1..]);
      assert pieces[1..] == tail by {
        assert EntryLines(values) == tail;
      }
      assert Delimited.Join(pieces, '\n') == head + ['\n'] + Delimited.Join(tail, '\n');
      assert AppendEntries(values) == "\n" + first + rest;
    }
  }

  /** `AssertRouteIsInvalid(url, routes)`: a GET request must find no route; the failure message lists what it found. */
  function AssertRouteIsInvalid(routes: RouteLookup, urlElement: string): (r: Verdict)
    ensures routes(urlElement, Get).None? <==> r == Pass
    ensures r.Fail? ==> r.message == InvalidRouteMessage(routes(urlElement, Get))
  {
    var routeData := routes(urlElement, Get);
    Run([IsNull(routeData.Some?, InvalidRouteMessage(routeData))])
  }

  /** Upper-casing leaves line breaks where they were: none appear that were not there. */
  lemma UpperKeepsNewlineFree(s: string)
    requires '\n' !in s
    ensures '\n' !in Upper(s)
  {
  }

  lemma HeaderIsOneLine()
    ensures '\n' !in FoundHeader
  {
    assert FoundHeader == "Should not " + "have found " + "the route, " + "but found...";
    assert '\n' !in "Should not ";
    assert '\n' !in "have found ";
    assert '\n' !in "the route, ";
    assert '\n' !in "but found...";
  }

  lemma NewlineFreeConcat(a: string, b: string, c: string)
    requires '\n' !in a && '\n' !in b && '\n' !in c
    ensures '\n' !in a + b + c
  {
  }

  /**
   * The failure message can be read back: split at line breaks it is the
   * header followed by one "KEY: value" line per route value, in order, as
   * long as no key or value holds a line break.
   */
  lemma InvalidRouteMessageLines(values: RouteValues)
    requires forall i :: 0 <= i < |values| ==> '\n' !in values[i].0 && '\n' !in RouteValueText(values[i].1)
    ensures Delimited.Split(InvalidRouteMessage(Some(values)), '\n') == [FoundHeader] + EntryLines(values)
  {
    var pieces := [FoundHeader] + EntryLines(values);
    forall i | 0 <= i < |pieces|
      ensures '\n' !in pieces[i]
    {
      if i > 0 {
        var key := Upper(values[i - 1].0);
        var text := RouteValueText(values[i - 1].1);
        UpperKeepsNewlineFree(values[i - 1].0);
        assert pieces[i] == key + ": " + text;
        assert '\n' !in ": ";
        NewlineFreeConcat(key, ": ", text);
      } else {
        assert pieces[i] == FoundHeader;
        HeaderIsOneLine();
      }
    }
    Delimited.SplitJoin(pieces, '\n');
  }

  /** `AssertOutgoingRouteUrlGeneration`: the generated URL (null when none) equals the expected one ignoring case. */
  function AssertOutgoingRouteUrlGeneration(expectedUrl: Option<string>, generatedUrl: Option<string>): (r: Verdict)
    ensures r == Pass <==> OptionCaseInsensitiveEqual(expectedUrl, generatedUrl)
  {
    var actual := match generatedUrl case None => None case Some(url) => Some(Value(url));
    Run([AreCaseInsensitiveEqual(expectedUrl, actual, "")])
  }
}
