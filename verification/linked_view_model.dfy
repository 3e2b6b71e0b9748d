/**
 * `LinkedViewModelBase`: a view model wrapping one document type. Assigning
 * the inner object stores it and then runs the subclass's `InitModel`, which
 * is the caller-supplied `init` here; `initialisations` counts its runs.
 */
module LinkedViewModel {
  import opened Wrappers
  import opened PublishedContent
  import DocumentType

  /**
   * What the view model reads from its inner document type (`IDocumentType`):
   * each getter's outcome, which may be an exception of its own.
   */
  datatype DocumentView = DocumentView(hasContent: Result<bool>, name: Result<string>, url: Result<string>, content: Result<Option<Node>>)

  /**
   * The library's own document type seen through `IDocumentType`. Each getter
   * reads the content afresh; a read caches at most a converted node, and a
   * second read returns the first one's result, so the outcomes do not depend
   * on the order of the reads.
   */
  function ViewOf(d: DocumentType.DocumentType): (r: DocumentView)
    ensures r.content == DocumentType.ReadContent(d).result
    ensures r.name == DocumentType.Name(d).result && r.url == DocumentType.Url(d).result
    ensures r.hasContent == DocumentType.HasContent(d).result
  {
    DocumentView(DocumentType.HasContent(d).result, DocumentType.Name(d).result, DocumentType.Url(d).result, DocumentType.ReadContent(d).result)
  }

  /** The view model: its inner object, the subclass's own state, and how often `InitModel` has run. */
  datatype ViewModel<S> = ViewModel(inner: Option<DocumentView>, state: S, initialisations: nat)

  /** The `InnerObject` setter: store the value, then run `InitModel` once, which sees the stored value. */
  function SetInnerObject<S>(vm: ViewModel<S>, value: Option<DocumentView>, init: (Option<DocumentView>, S) -> S): (r: ViewModel<S>)
    ensures r.inner == value
    ensures r.initialisations == vm.initialisations + 1
    ensures r.state == init(r.inner, vm.state)
  {
    ViewModel(value, init(value, vm.state), vm.initialisations + 1)
  }

  /**
   * `HasContent`: false without an inner object, otherwise the inner
   * object's `HasContent`, whose exception propagates.
   */
  function HasContent<S>(vm: ViewModel<S>): (r: Result<bool>)
    ensures vm.inner.None? ==> r == Success(false)
    ensures vm.inner.Some? ==> r == vm.inner.value.hasContent
  {
    if vm.inner.None? then Success(false) else vm.inner.value.hasContent
  }

  /** `Name`: read from the inner object with no null guard; the inner getter's exception propagates. */
  function Name<S>(vm: ViewModel<S>): (r: Result<string>)
    ensures vm.inner.None? ==> r == Failure(NullReference)
    ensures vm.inner.Some? ==> r == vm.inner.value.name
  {
    if vm.inner.None? then Failure(NullReference) else vm.inner.value.name
  }

  /** `Url`: read from the inner object with no null guard; the inner getter's exception propagates. */
  function Url<S>(vm: ViewModel<S>): (r: Result<string>)
    ensures vm.inner.None? ==> r == Failure(NullReference)
    ensures vm.inner.Some? ==> r == vm.inner.value.url
  {
    if vm.inner.None? then Failure(NullReference) else vm.inner.value.url
  }

  /** `Content`: read from the inner object with no null guard; the inner getter's exception propagates. */
  function Content<S>(vm: ViewModel<S>): (r: Result<Option<Node>>)
    ensures vm.inner.None? ==> r == Failure(NullReference)
    ensures vm.inner.Some? ==> r == vm.inner.value.content
  {
    if vm.inner.None? then Failure(NullReference) else vm.inner.value.content
  }

  /** Assigning a sequence of inner objects runs `InitModel` once per assignment and keeps the last value. */
  function AssignAll<S>(vm: ViewModel<S>, values: seq<Option<DocumentView>>, init: (Option<DocumentView>, S) -> S): ViewModel<S>
    decreases |values|
  {
    if values == [] then vm else AssignAll(SetInnerObject(vm, values[0], init), values[1..], init)
  }

  lemma {:induction false} AssignAllCountsInitialisations<S>(vm: ViewModel<S>, values: seq<Option<DocumentView>>, init: (Option<DocumentView>, S) -> S)
    ensures AssignAll(vm, values, init).initialisations == vm.initialisations + |values|
    ensures values != [] ==> AssignAll(vm, values, init).inner == values[|values| - 1]
    ensures values == [] ==> AssignAll(vm, values, init) == vm
    decreases |values|
  {
    if values != [] {
      AssignAllCountsInitialisations(SetInnerObject(vm, values[0], init), values[1..], init);
    }
  }

  /** After any assignment, the forwarding getters and `HasContent` read the assigned object. */
  lemma GettersReadAssignedObject<S>(vm: ViewModel<S>, value: DocumentView, init: (Option<DocumentView>, S) -> S)
    ensures HasContent(SetInnerObject(vm, Some(value), init)) == value.hasContent
    ensures Name(SetInnerObject(vm, Some(value), init)) == value.name
    ensures Url(SetInnerObject(vm, Some(value), init)) == value.url
    ensures Content(SetInnerObject(vm, Some(value), init)) == value.content
    ensures HasContent(SetInnerObject(vm, None, init)) == Success(false)
  {
  }

  /**
   * Wrapping the library's document type: one with content forwards its
   * node's name and URL; one holding the null marker has no content, and its
   * name and URL are null references; one with neither content nor a dynamic
   * value makes every getter, `HasContent` included, throw the binder's error.
   */
  lemma InnerDocumentTypeGetters<S>(vm: ViewModel<S>, d: DocumentType.DocumentType, init: (Option<DocumentView>, S) -> S)
    ensures var m := SetInnerObject(vm, Some(ViewOf(d)), init);
            d.content.Some? ==>
              && Name(m) == Success(d.content.value.name) && Url(m) == Success(d.content.value.url)
              && Content(m) == Success(d.content)
    ensures var m := SetInnerObject(vm, Some(ViewOf(d)), init);
            d.content.None? && d.dynamicContent == Some(DynamicNull) ==>
              && HasContent(m) == Success(false) && Content(m) == Success(None)
              && Name(m) == Failure(NullReference) && Url(m) == Failure(NullReference)
    ensures var m := SetInnerObject(vm, Some(ViewOf(d)), init);
            var binder := Raised(DocumentType.NullBindingMessage);
            d.content.None? && d.dynamicContent.None? ==>
              && HasContent(m) == Failure(binder) && Name(m) == Failure(binder)
              && Url(m) == Failure(binder) && Content(m) == Failure(binder)
  {
  }
}
