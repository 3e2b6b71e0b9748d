/**
 * `DocumentTypeBase`: a strongly typed wrapper over one content node.
 *
 * The node is either assigned explicitly (constructor or setter) or obtained
 * on first read from a dynamic value, which is converted and cached. A
 * dynamic value that was never assigned is null, and the runtime binder
 * throws when the getter tests its type. The content repository the class also stores is not read
 * by any member modelled here.
 */
module DocumentType {
  import opened Wrappers
  import opened Parsing
  import opened PublishedContent

  datatype DocumentType = DocumentType(content: Option<Node>, dynamicContent: Option<DynamicValue>)

  /** The document after a call, with the call's result. */
  datatype Step<T> = Step(document: DocumentType, result: T)

  /** The repository-only constructor: no content, no dynamic content. */
  function New(): (d: DocumentType)
    ensures d.content.None? && d.dynamicContent.None?
  {
    DocumentType(None, None)
  }

  /** The constructor taking content: `New()` followed by the `Content` setter. */
  function NewWithContent(content: Option<Node>): (d: DocumentType)
    ensures d == SetContent(New(), content)
  {
    SetContent(New(), content)
  }

  /** The `Content` setter. */
  function SetContent(d: DocumentType, content: Option<Node>): (r: DocumentType)
    ensures r.content == content && r.dynamicContent == d.dynamicContent
  {
    d.(content := content)
  }

  /** Assigning `DynamicContent`, as a subclass does. */
  function SetDynamicContent(d: DocumentType, value: Option<DynamicValue>): (r: DocumentType)
    ensures r.dynamicContent == value && r.content == d.content
  {
    d.(dynamicContent := value)
  }

  /** The message of the `RuntimeBinderException` a member call on a null `dynamic` raises. */
  const NullBindingMessage: string := "Cannot perform runtime binding on a null reference"

  /**
   * The `Content` getter: the assigned node when there is one; otherwise the
   * dynamic value converted and cached, null for Umbraco's null marker. An
   * unassigned dynamic value makes the runtime binder throw on the type test,
   * and a dynamic value that is not a node fails the cast.
   */
  function ReadContent(d: DocumentType): (r: Step<Result<Option<Node>>>)
    ensures d.content.Some? ==> r == Step(d, Success(d.content))
    ensures d.content.None? && d.dynamicContent == Some(DynamicNull) ==> r == Step(d, Success(None))
    ensures d.content.None? && d.dynamicContent.Some? && d.dynamicContent.value.DynamicNode? ==>
              var node := d.dynamicContent.value.node;
              r.result == Success(Some(node)) && r.document == SetContent(d, Some(node))
    ensures d.content.None? && d.dynamicContent.None? ==> r == Step(d, Failure(Raised(NullBindingMessage)))
    ensures d.content.None? && d.dynamicContent == Some(DynamicOther) ==> r == Step(d, Failure(InvalidCast))
  {
    if d.content.Some? then Step(d, Success(d.content))
    else
      match d.dynamicContent
      case None => Step(d, Failure(Raised(NullBindingMessage)))
      case Some(DynamicNull) => Step(d.(content := None), Success(None))
      case Some(DynamicNode(node)) => Step(d.(content := Some(node)), Success(Some(node)))
      case Some(DynamicOther) => Step(d, Failure(InvalidCast))
  }

  /** A second read returns what the first returned and changes nothing more. */
  lemma ReadContentIsStable(d: DocumentType)
    ensures ReadContent(ReadContent(d).document) == ReadContent(d)
  {
  }

  /** `Name`: the content's name, read through the getter with no null guard. */
  function Name(d: DocumentType): (r: Step<Result<string>>)
    ensures r.document == ReadContent(d).document
    ensures ReadContent(d).result.Failure? ==> r.result == Failure(ReadContent(d).result.error)
    ensures ReadContent(d).result == Success(None) ==> r.result == Failure(NullReference)
    ensures ReadContent(d).result.Success? && ReadContent(d).result.value.Some? ==>
              r.result == Success(ReadContent(d).result.value.value.name)
  {
    var read := ReadContent(d);
    match read.result
    case Failure(e) => Step(read.document, Failure(e))
    case Success(None) => Step(read.document, Failure(NullReference))
    case Success(Some(node)) => Step(read.document, Success(node.name))
  }

  /** `Url`: the content's `Url()`, read through the getter with no null guard. */
  function Url(d: DocumentType): (r: Step<Result<string>>)
    ensures r.document == ReadContent(d).document
    ensures ReadContent(d).result.Failure? ==> r.result == Failure(ReadContent(d).result.error)
    ensures ReadContent(d).result == Success(None) ==> r.result == Failure(NullReference)
    ensures ReadContent(d).result.Success? && ReadContent(d).result.value.Some? ==>
              r.result == Success(ReadContent(d).result.value.value.url)
  {
    var read := ReadContent(d);
    match read.result
    case Failure(e) => Step(read.document, Failure(e))
    case Success(None) => Step(read.document, Failure(NullReference))
    case Success(Some(node)) => Step(read.document, Success(node.url))
  }

  /**
   * `HasContent`: the content is non-null and its id is not 0. The getter is
   * read twice; the second read sees the node the first one cached.
   */
  function HasContent(d: DocumentType): (r: Step<Result<bool>>)
    ensures r.document == ReadContent(d).document
    ensures r.result.Success? <==> ReadContent(d).result.Success?
    ensures r.result.Success? ==>
              (r.result.value <==> ReadContent(d).result.value.Some? && ReadContent(d).result.value.value.id != 0)
  {
    var first := ReadContent(d);
    if first.result.Failure? then Step(first.document, Failure(first.result.error))
    else if first.result.value.None? then Step(first.document, Success(false))
    else
      var second := ReadContent(first.document);
      ReadContentIsStable(d);
      Step(second.document, Success(second.result.value.value.id != 0))
  }

  /**
   * `GetContent(alias)`: null when there is no content, no such property or
   * a null value, otherwise the value's string form. The getter is read twice.
   */
  function GetContent(d: DocumentType, alias: string): (r: Step<Result<Option<string>>>)
    ensures r.document == ReadContent(d).document
    ensures r.result.Success? <==> ReadContent(d).result.Success?
    ensures r.result.Success? ==> r.result.value == StringFormOf(ReadContent(d).result.value, alias)
  {
    var first := ReadContent(d);
    if first.result.Failure? then Step(first.document, Failure(first.result.error))
    else if first.result.value.None? then Step(first.document, Success(None))
    else
      var second := ReadContent(first.document);
      ReadContentIsStable(d);
      Step(second.document, Success(StringFormOf(second.result.value, alias)))
  }

  /** `GetNumericContent(alias)`: the parsed integer, 0 when absent or unparseable. */
  function GetNumericContent(d: DocumentType, alias: string): (r: Step<Result<int>>)
    ensures r.document == ReadContent(d).document
    ensures r.result.Success? <==> ReadContent(d).result.Success?
    ensures r.result.Success? ==> InInt32(r.result.value)
    ensures r.result.Success? && !HasValue(ReadContent(d).result.value, alias) ==> r.result.value == 0
    ensures r.result.Success? && HasValue(ReadContent(d).result.value, alias) ==>
              r.result.value == ParseInt32(StringFormOf(ReadContent(d).result.value, alias).value).GetOr(0)
  {
    var text := GetContent(d, alias);
    if text.result.Failure? then Step(text.document, Failure(text.result.error))
    else Step(text.document, Success(NumericOf(text.result.value)))
  }

  /** `GetBooleanContent(alias)`: true only when the value parses as true. */
  function GetBooleanContent(d: DocumentType, alias: string): (r: Step<Result<bool>>)
    ensures r.document == ReadContent(d).document
    ensures r.result.Success? <==> ReadContent(d).result.Success?
    ensures r.result.Success? ==>
              (r.result.value <==>
                 HasValue(ReadContent(d).result.value, alias)
                 && ParseBoolean(StringFormOf(ReadContent(d).result.value, alias).value) == Some(true))
  {
    var text := GetContent(d, alias);
    if text.result.Failure? then Step(text.document, Failure(text.result.error))
    else Step(text.document, Success(BooleanOf(text.result.value)))
  }

  /** `GetDateContent(alias, default)`: the parsed date, `default` when absent or unparseable. */
  function GetDateContent(d: DocumentType, alias: string, default: DateTime, parse: DateParser): (r: Step<Result<DateTime>>)
    ensures r.document == ReadContent(d).document
    ensures r.result.Success? <==> ReadContent(d).result.Success?
    ensures r.result.Success? && !HasValue(ReadContent(d).result.value, alias) ==> r.result.value == default
    ensures r.result.Success? && HasValue(ReadContent(d).result.value, alias) ==>
              r.result.value == parse(StringFormOf(ReadContent(d).result.value, alias).value).GetOr(default)
  {
    var text := GetContent(d, alias);
    if text.result.Failure? then Step(text.document, Failure(text.result.error))
    else Step(text.document, Success(DateOf(text.result.value, default, parse)))
  }

  /** Content assigned through the constructor or the setter is what the getter returns. */
  lemma AssignedContentIsReturned(d: DocumentType, node: Node)
    ensures ReadContent(NewWithContent(Some(node))).result == Success(Some(node))
    ensures ReadContent(SetContent(d, Some(node))).result == Success(Some(node))
    ensures ReadContent(SetContent(d, Some(node))).document == SetContent(d, Some(node))
  {
  }

  /** With Umbraco's null marker as dynamic content and nothing assigned, there is no content. */
  lemma NullMarkerMeansNoContent()
    ensures ReadContent(SetDynamicContent(New(), Some(DynamicNull))).result == Success(None)
    ensures HasContent(SetDynamicContent(New(), Some(DynamicNull))).result == Success(false)
  {
  }

  /** A dynamic node is converted on the first read and every later read returns it. */
  lemma DynamicNodeIsCached(d: DocumentType, node: Node)
    requires d.content.None?
    requires d.dynamicContent == Some(DynamicNode(node))
    ensures ReadContent(d).document.content == Some(node)
    ensures ReadContent(ReadContent(d).document).result == Success(Some(node))
    ensures ReadContent(SetDynamicContent(ReadContent(d).document, Some(DynamicNull))).result == Success(Some(node))
  {
  }
}
