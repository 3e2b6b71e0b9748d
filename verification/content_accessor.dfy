/**
 * `ContentAccessor`: holds a "current" content object and reads typed
 * property values from it. Umbraco.Pylon and Umbraco.PylonLite carry the same
 * class line for line, so one model serves both.
 *
 * The object's state is the current node and the configured lookup function
 * (`GetContentFunc`, a map from id to node; None is an unset delegate). Every
 * operation returns the accessor as it is after the call with its result.
 * Overloads that take a content object are suffixed `On`.
 */
module ContentAccessor {
  import opened Wrappers
  import opened Parsing
  import opened PublishedContent

  datatype Accessor = Accessor(contentObject: Option<Node>, getContentFunc: Option<map<int, Node>>)

  /** The accessor after a call, with the call's result. */
  datatype Step<T> = Step(accessor: Accessor, result: T)

  /** A fresh accessor: no current object and no lookup function. */
  function New(): (a: Accessor)
    ensures a.contentObject.None? && a.getContentFunc.None?
  {
    Accessor(None, None)
  }

  /** Assigning `GetContentFunc`: the current object is kept, and every later `Content(id)` consults the new lookup. */
  function SetGetContentFunc(a: Accessor, f: Option<map<int, Node>>): (r: Accessor)
    ensures r.getContentFunc == f && r.contentObject == a.contentObject
    ensures forall id :: ContentById(r, id).result == if f.None? then Failure(NullReference) else Success(Lookup(f.value, id))
  {
    a.(getContentFunc := f)
  }

  /**
   * `Content(id)`: replaces the current object with the lookup's result for
   * `id` and returns that same object. Invoking an unset delegate throws, and
   * the current object is then left as it was.
   */
  function ContentById(a: Accessor, id: int): (r: Step<Result<Option<Node>>>)
    ensures a.getContentFunc.None? ==> r.result == Failure(NullReference) && r.accessor == a
    ensures a.getContentFunc.Some? ==>
              && r.result == Success(Lookup(a.getContentFunc.value, id))
              && r.accessor.contentObject == r.result.value
              && r.accessor.getContentFunc == a.getContentFunc
  {
    match a.getContentFunc
    case None => Step(a, Failure(NullReference))
    case Some(f) =>
      var found := Lookup(f, id);
      Step(a.(contentObject := found), Success(found))
  }

  /**
   * The `ContentObject` setter — the accessor with `content` made current, as
   * every `On` overload starts: the lookup is kept, and reads see `content`.
   */
  function WithContent(a: Accessor, content: Option<Node>): (r: Accessor)
    ensures r.contentObject == content && r.getContentFunc == a.getContentFunc
    ensures forall alias :: Value(r, alias) == ValueOf(content, alias)
  {
    a.(contentObject := content)
  }

  /** `Value(alias)`: the raw property value of the current object, or null. */
  function Value(a: Accessor, alias: string): (r: Option<PropertyValue>)
    ensures a.contentObject.None? ==> r.None?
    ensures a.contentObject.Some? && alias !in a.contentObject.value.properties ==> r.None?
    ensures a.contentObject.Some? && alias in a.contentObject.value.properties ==>
              r == a.contentObject.value.properties[alias].value
  {
    ValueOf(a.contentObject, alias)
  }

  /** `Value(content, alias)`. */
  function ValueOn(a: Accessor, content: Option<Node>, alias: string): (r: Step<Option<PropertyValue>>)
    ensures r.accessor == WithContent(a, content)
    ensures r.result == Value(r.accessor, alias)
  {
    var b := WithContent(a, content);
    Step(b, Value(b, alias))
  }

  /**
   * `StringValue(alias)`: null when there is no current object, no such
   * property, or a null value; otherwise the value's string form.
   */
  function StringValue(a: Accessor, alias: string): (r: Option<string>)
    ensures r.None? <==> !HasValue(a.contentObject, alias)
    ensures r.Some? ==> r.value == Value(a, alias).value.asString
  {
    StringFormOf(a.contentObject, alias)
  }

  /** `StringValue(content, alias)`. */
  function StringValueOn(a: Accessor, content: Option<Node>, alias: string): (r: Step<Option<string>>)
    ensures r.accessor == WithContent(a, content)
    ensures r.result == StringValue(r.accessor, alias)
  {
    var b := WithContent(a, content);
    Step(b, StringValue(b, alias))
  }

  /**
   * `DelimitedStringCollection(alias, delimiter)`: empty for a null or blank
   * string value, otherwise the value split at every delimiter.
   */
  function DelimitedStringCollection(a: Accessor, alias: string, delimiter: char := DefaultDelimiter): (r: seq<string>)
    ensures Text.IsNullOrWhiteSpace(StringValue(a, alias)) ==> r == []
    ensures !Text.IsNullOrWhiteSpace(StringValue(a, alias)) ==>
              Delimited.Join(r, delimiter) == StringValue(a, alias).value
    ensures !Text.IsNullOrWhiteSpace(StringValue(a, alias)) ==>
              |r| == multiset(StringValue(a, alias).value)[delimiter] + 1
  {
    DelimitedOf(StringValue(a, alias), delimiter)
  }

  /** `DelimitedStringCollection(content, alias, delimiter)`. */
  function DelimitedStringCollectionOn(a: Accessor, content: Option<Node>, alias: string, delimiter: char := DefaultDelimiter): (r: Step<seq<string>>)
    ensures r.accessor == WithContent(a, content)
    ensures r.result == DelimitedStringCollection(r.accessor, alias, delimiter)
  {
    var b := WithContent(a, content);
    Step(b, DelimitedStringCollection(b, alias, delimiter))
  }

  /** `NumericValue(alias)`: the parsed 32-bit integer, 0 when absent or unparseable. */
  function NumericValue(a: Accessor, alias: string): (r: int)
    ensures InInt32(r)
    ensures StringValue(a, alias).None? ==> r == 0
    ensures StringValue(a, alias).Some? ==> r == ParseInt32(StringValue(a, alias).value).GetOr(0)
  {
    NumericOf(StringValue(a, alias))
  }

  /** `NumericValue(content, alias)`. */
  function NumericValueOn(a: Accessor, content: Option<Node>, alias: string): (r: Step<int>)
    ensures r.accessor == WithContent(a, content)
    ensures r.result == NumericValue(r.accessor, alias)
  {
    var b := WithContent(a, content);
    Step(b, NumericValue(b, alias))
  }

  /** `NullableNumericValue(alias)`: the parsed 32-bit integer, null when absent or unparseable. */
  function NullableNumericValue(a: Accessor, alias: string): (r: Option<int>)
    ensures r.Some? <==> StringValue(a, alias).Some? && ParseInt32(StringValue(a, alias).value).Some?
    ensures r.Some? ==> r == ParseInt32(StringValue(a, alias).value)
  {
    NullableNumericOf(StringValue(a, alias))
  }

  /** `NullableNumericValue(content, alias)`. */
  function NullableNumericValueOn(a: Accessor, content: Option<Node>, alias: string): (r: Step<Option<int>>)
    ensures r.accessor == WithContent(a, content)
    ensures r.result == NullableNumericValue(r.accessor, alias)
  {
    var b := WithContent(a, content);
    Step(b, NullableNumericValue(b, alias))
  }

  /** `BooleanValue(alias)`: true only when the value parses as the boolean true. */
  function BooleanValue(a: Accessor, alias: string): (r: bool)
    ensures r <==> StringValue(a, alias).Some? && ParseBoolean(StringValue(a, alias).value) == Some(true)
  {
    BooleanOf(StringValue(a, alias))
  }

  /** `BooleanValue(content, alias)`. */
  function BooleanValueOn(a: Accessor, content: Option<Node>, alias: string): (r: Step<bool>)
    ensures r.accessor == WithContent(a, content)
    ensures r.result == BooleanValue(r.accessor, alias)
  {
    var b := WithContent(a, content);
    Step(b, BooleanValue(b, alias))
  }

  /** `DateValue(alias, default)`: the parsed date, `default` when absent or unparseable. */
  function DateValue(a: Accessor, alias: string, default: DateTime, parse: DateParser): (r: DateTime)
    ensures StringValue(a, alias).None? ==> r == default
    ensures StringValue(a, alias).Some? ==> r == parse(StringValue(a, alias).value).GetOr(default)
  {
    DateOf(StringValue(a, alias), default, parse)
  }

  /** `DateValue(content, alias, default)`. */
  function DateValueOn(a: Accessor, content: Option<Node>, alias: string, default: DateTime, parse: DateParser): (r: Step<DateTime>)
    ensures r.accessor == WithContent(a, content)
    ensures r.result == DateValue(r.accessor, alias, default, parse)
  {
    var b := WithContent(a, content);
    Step(b, DateValue(b, alias, default, parse))
  }

  /** `NumericValue` is `NullableNumericValue` with null read as 0: both fall back on the same inputs. */
  lemma NumericAgreesWithNullable(a: Accessor, alias: string)
    ensures NumericValue(a, alias) == NullableNumericValue(a, alias).GetOr(0)
    ensures NullableNumericValue(a, alias).None? ==> NumericValue(a, alias) == 0
  {
    NumericIsNullableOrZero(StringValue(a, alias));
  }

  /**
   * A non-blank string value is exactly the join of its delimited collection,
   * and the collection is exactly the split of the value: the two are inverse.
   */
  lemma DelimitedCollectionRoundTrip(a: Accessor, alias: string, delimiter: char)
    requires !Text.IsNullOrWhiteSpace(StringValue(a, alias))
    ensures Delimited.Join(DelimitedStringCollection(a, alias, delimiter), delimiter) == StringValue(a, alias).value
    ensures Delimited.Split(Delimited.Join(DelimitedStringCollection(a, alias, delimiter), delimiter), delimiter)
            == DelimitedStringCollection(a, alias, delimiter)
  {
    var pieces := DelimitedStringCollection(a, alias, delimiter);
    Delimited.SplitJoin(pieces, delimiter);
  }

  /**
   * After an `On` overload the given object stays current: later
   * single-argument reads see its properties, whichever overload was used.
   */
  lemma OverloadKeepsContentCurrent(a: Accessor, content: Option<Node>, alias: string, other: string)
    ensures StringValue(NumericValueOn(a, content, alias).accessor, other) == StringFormOf(content, other)
    ensures StringValue(BooleanValueOn(a, content, alias).accessor, other) == StringFormOf(content, other)
    ensures StringValue(DelimitedStringCollectionOn(a, content, alias).accessor, other) == StringFormOf(content, other)
    ensures Value(ValueOn(a, content, alias).accessor, other) == ValueOf(content, other)
  {
  }

  /** Fetching by id makes the fetched node the source of later reads. */
  lemma ContentByIdFeedsLaterReads(a: Accessor, id: int, alias: string)
    requires a.getContentFunc.Some?
    ensures StringValue(ContentById(a, id).accessor, alias) == StringFormOf(Lookup(a.getContentFunc.value, id), alias)
  {
  }
}
