/**
 * `MediaAccessor`: media lookups through a configurable lookup function.
 * Its only state is `GetContentFunc` (a map from id to node; None is an unset
 * delegate). Ids passed as `int?` are `Option<int>`.
 */
module MediaAccessor {
  import opened Wrappers
  import opened PublishedContent

  datatype MediaAccessor = MediaAccessor(getContentFunc: Option<map<int, Node>>)

  const MissingLookupMessage: string := "No method content has been specified for the GetContentFunc property"

  /** The accessor after a call, with the call's result. */
  datatype Step<T> = Step(accessor: MediaAccessor, result: T)

  /** `Content(id)`: the lookup's result, or a missing-method failure when no lookup is configured. */
  function ContentById(m: MediaAccessor, id: int): (r: Result<Option<Node>>)
    ensures m.getContentFunc.None? ==> r == Failure(MissingMethod(MissingLookupMessage))
    ensures m.getContentFunc.Some? ==> r == Success(Lookup(m.getContentFunc.value, id))
  {
    match m.getContentFunc
    case None => Failure(MissingMethod(MissingLookupMessage))
    case Some(f) => Success(Lookup(f, id))
  }

  /**
   * `Content(id, f)`: rejects a null `f`; otherwise installs `f` as the
   * configured lookup and returns its result for `id`.
   */
  function ContentWith(m: MediaAccessor, id: int, f: Option<map<int, Node>>): (r: Step<Result<Option<Node>>>)
    ensures f.None? ==> r == Step(m, Failure(MissingMethod(MissingLookupMessage)))
    ensures f.Some? ==> r.accessor.getContentFunc == f && r.result == Success(Lookup(f.value, id))
  {
    match f
    case None => Step(m, Failure(MissingMethod(MissingLookupMessage)))
    case Some(g) => Step(MediaAccessor(Some(g)), Success(Lookup(g, id)))
  }

  /**
   * `Exists(id)`: false for null and 0 without a lookup; otherwise whether
   * the lookup finds an item, with a missing lookup's failure passed on.
   */
  function Exists(m: MediaAccessor, id: Option<int>): (r: Result<bool>)
    ensures id.None? || id.value == 0 ==> r == Success(false)
    ensures id.Some? && id.value != 0 && m.getContentFunc.None? ==> r == Failure(MissingMethod(MissingLookupMessage))
    ensures id.Some? && id.value != 0 && m.getContentFunc.Some? ==>
              r == Success(id.value in m.getContentFunc.value)
  {
    if id.None? || id.value == 0 then Success(false)
    else
      var found :- ContentById(m, id.value);
      Success(found.Some?)
  }

  /** `Url(id)`: "" when `Exists` is false, otherwise the found item's URL. */
  function Url(m: MediaAccessor, id: Option<int>): (r: Result<string>)
    ensures r.Failure? <==> Exists(m, id).Failure?
    ensures Exists(m, id) == Success(false) ==> r == Success("")
    ensures Exists(m, id) == Success(true) ==> r == Success(m.getContentFunc.value[id.value].url)
  {
    var present :- Exists(m, id);
    if !present then Success("")
    else
      var found := ContentById(m, id.value);
      Success(found.value.value.url)
  }

  /** A lookup installed by `Content(id, f)` serves the later `Content(id')` and `Exists` calls. */
  lemma InstalledLookupIsUsed(m: MediaAccessor, id: int, f: map<int, Node>, later: int)
    requires later != 0
    ensures ContentById(ContentWith(m, id, Some(f)).accessor, later) == Success(Lookup(f, later))
    ensures Exists(ContentWith(m, id, Some(f)).accessor, Some(later)) == Success(later in f)
  {
  }
}
