/**
 * Published content as the accessors see it, and the shared coercion rules:
 * a node's property is read, turned into its string form, and then coerced
 * to an integer, a boolean, a date or a delimited list, with a fallback
 * value whenever the property is absent or does not parse.
 */
module PublishedContent {
  import opened Wrappers
  import opened Text
  import opened Parsing
  import Delimited

  /** A property value object; `asString` is what its `ToString()` returns. */
  datatype PropertyValue = PropertyValue(asString: string)

  /** An `IPublishedProperty`; its `Value` may be null. */
  datatype Property = Property(value: Option<PropertyValue>)

  /**
   * An `IPublishedContent` node: its id, name, URL and properties by alias.
   * `GetProperty(alias)` is null for an alias the node does not have.
   */
  datatype Node = Node(id: int, name: string, url: string, properties: map<string, Property>)

  /** A value typed `dynamic` in the source: Umbraco's null marker, a published node, or anything else. */
  datatype DynamicValue = DynamicNull | DynamicNode(node: Node) | DynamicOther

  /** A CMS lookup by id (`TypedContent`, `TypedMedia`, a configured `Func<int, IPublishedContent>`). */
  function Lookup(nodes: map<int, Node>, id: int): (r: Option<Node>)
    ensures r.Some? <==> id in nodes
    ensures r.Some? ==> r.value == nodes[id]
  {
    if id in nodes then Some(nodes[id]) else None
  }

  /** The property carries a non-null value. */
  predicate HasValue(content: Option<Node>, alias: string) {
    content.Some? && alias in content.value.properties && content.value.properties[alias].value.Some?
  }

  /**
   * The property value object: null when there is no node, the node has no
   * such property, or the property's value is null.
   */
  function ValueOf(content: Option<Node>, alias: string): (r: Option<PropertyValue>)
    ensures r.Some? <==> HasValue(content, alias)
    ensures r.Some? ==> r.value == content.value.properties[alias].value.value
  {
    if content.None? then None
    else if alias !in content.value.properties then None
    else content.value.properties[alias].value
  }

  /** The property value's string form, null in the same cases as `ValueOf`. */
  function StringFormOf(content: Option<Node>, alias: string): (r: Option<string>)
    ensures r.Some? <==> HasValue(content, alias)
    ensures r.Some? ==> r.value == ValueOf(content, alias).value.asString
  {
    if content.None? then None
    else if alias !in content.value.properties then None
    else
      var property := content.value.properties[alias];
      if property.value.None? then None else Some(property.value.value.asString)
  }

  /** The delimiter a delimited collection uses unless told otherwise. */
  const DefaultDelimiter: char := ','

  /**
   * The delimited collection of a string value: nothing for a null or blank
   * value, otherwise its split at every delimiter with empty pieces kept.
   */
  function DelimitedOf(value: Option<string>, delimiter: char): (r: seq<string>)
    ensures IsNullOrWhiteSpace(value) ==> r == []
    ensures !IsNullOrWhiteSpace(value) ==>
              && Delimited.Join(r, delimiter) == value.value
              && |r| == multiset(value.value)[delimiter] + 1
              && (forall i :: 0 <= i < |r| ==> delimiter !in r[i])
  {
    if IsNullOrWhiteSpace(value) then []
    else
      Delimited.JoinSplit(value.value, delimiter);
      Delimited.SplitCount(value.value, delimiter);
      Delimited.Split(value.value, delimiter)
  }

  /** The integer a string value parses to, or 0 when it is null or does not parse. */
  function NumericOf(value: Option<string>): (r: int)
    ensures InInt32(r)
    ensures value.Some? && ParseInt32(value.value).Some? ==> r == ParseInt32(value.value).value
    ensures value.None? || ParseInt32(value.value).None? ==> r == 0
  {
    if value.Some? && ParseInt32(value.value).Some? then ParseInt32(value.value).value else 0
  }

  /** The integer a string value parses to, or null when it is null or does not parse. */
  function NullableNumericOf(value: Option<string>): (r: Option<int>)
    ensures r.Some? <==> value.Some? && ParseInt32(value.value).Some?
    ensures r.Some? ==> r.value == ParseInt32(value.value).value
  {
    if value.None? then None else ParseInt32(value.value)
  }

  /** `NumericOf` is `NullableNumericOf` with null read as 0. */
  lemma NumericIsNullableOrZero(value: Option<string>)
    ensures NumericOf(value) == NullableNumericOf(value).GetOr(0)
  {
  }

  /** True exactly when the string value parses as the boolean true. */
  function BooleanOf(value: Option<string>): (r: bool)
    ensures r <==> value.Some? && ParseBoolean(value.value) == Some(true)
  {
    value.Some? && ParseBoolean(value.value).Some? && ParseBoolean(value.value).value
  }

  /** The date a string value parses to, or `default` when it is null or does not parse. */
  function DateOf(value: Option<string>, default: DateTime, parse: DateParser): (r: DateTime)
    ensures value.None? || parse(value.value).None? ==> r == default
    ensures value.Some? && parse(value.value).Some? ==> r == parse(value.value).value
  {
    if value.Some? && parse(value.value).Some? then parse(value.value).value else default
  }
}
