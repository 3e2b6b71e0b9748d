/**
 * Umbraco.Pylon's `PublishedContentRepository`: media and content lookups
 * through an `UmbracoHelper` that may be missing. Reading the missing helper
 * throws, but the id guards answer null and 0 without reading it.
 */
module PylonRepository {
  import opened Wrappers
  import opened PublishedContent
  import opened Cms

  datatype Repository = Repository(umbraco: Option<UmbracoHelper>)

  const MissingHelperMessage: string :=
    "The Umbraco context property in the PublishedContentRepository is null. The value must be set by passing either an UmbracoContext or UmbracoHelper instance into the constructor."

  /** The parameterless constructor: no helper. */
  function New(): (r: Repository)
    ensures r.umbraco.None?
  {
    Repository(None)
  }

  /** The helper constructor; a null helper is stored as given. */
  function NewWithHelper(umbraco: Option<UmbracoHelper>): (r: Repository)
    ensures r.umbraco == umbraco
  {
    Repository(umbraco)
  }

  /** The context constructor: the helper constructor applied to a helper built from the context. */
  function NewWithContext(context: UmbracoContext): (r: Repository)
    ensures r == NewWithHelper(Some(HelperFor(context)))
    ensures r.umbraco.Some? && r.umbraco.value.cache == context.cache
  {
    NewWithHelper(Some(HelperFor(context)))
  }

  /** The `Umbraco` getter: the helper, or an `UmbracoException` when none was supplied. */
  function Umbraco(repo: Repository): (r: Result<UmbracoHelper>)
    ensures repo.umbraco.None? <==> r == Failure(UmbracoFailure(MissingHelperMessage))
    ensures repo.umbraco.Some? ==> r == Success(repo.umbraco.value)
  {
    match repo.umbraco
    case None => Failure(UmbracoFailure(MissingHelperMessage))
    case Some(h) => Success(h)
  }

  /** `MediaItem(id)`: the helper's media lookup. */
  function MediaItem(repo: Repository, id: int): (r: Result<Option<Node>>)
    ensures repo.umbraco.None? ==> r == Failure(UmbracoFailure(MissingHelperMessage))
    ensures repo.umbraco.Some? ==> r == Success(Lookup(repo.umbraco.value.cache.media, id))
  {
    var h :- Umbraco(repo);
    Success(TypedMedia(h, id))
  }

  /**
   * `MediaExists(id)`: false for null and 0 without consulting the helper;
   * otherwise whether the helper's media lookup finds an item.
   */
  function MediaExists(repo: Repository, id: Option<int>): (r: Result<bool>)
    ensures id.None? || id.value == 0 ==> r == Success(false)
    ensures id.Some? && id.value != 0 && repo.umbraco.None? ==> r == Failure(UmbracoFailure(MissingHelperMessage))
    ensures id.Some? && id.value != 0 && repo.umbraco.Some? ==>
              r == Success(id.value in repo.umbraco.value.cache.media)
  {
    if id.None? || id.value == 0 then Success(false)
    else
      var item :- MediaItem(repo, id.value);
      Success(item.Some?)
  }

  /** `MediaUrl(id)`: "" when `MediaExists` is false, otherwise the media item's URL. */
  function MediaUrl(repo: Repository, id: Option<int>): (r: Result<string>)
    ensures r.Failure? <==> MediaExists(repo, id).Failure?
    ensures MediaExists(repo, id) == Success(false) ==> r == Success("")
    ensures MediaExists(repo, id) == Success(true) ==> r == Success(repo.umbraco.value.cache.media[id.value].url)
  {
    var present :- MediaExists(repo, id);
    if !present then Success("")
    else
      var item := MediaItem(repo, id.value);
      Success(item.value.value.url)
  }

  /**
   * `Content(id)`: null for null and 0 without touching the helper, so it
   * succeeds even without one; otherwise the helper's dynamic content.
   */
  function Content(repo: Repository, id: Option<int>): (r: Result<Option<DynamicValue>>)
    ensures id.None? || id.value == 0 ==> r == Success(None)
    ensures id.Some? && id.value != 0 && repo.umbraco.None? ==> r == Failure(UmbracoFailure(MissingHelperMessage))
    ensures id.Some? && id.value != 0 && repo.umbraco.Some? ==>
              r == Success(Some(DynamicContent(repo.umbraco.value, id.value)))
  {
    if id.None? || id.value == 0 then Success(None)
    else
      var h :- Umbraco(repo);
      Success(Some(DynamicContent(h, id.value)))
  }

  /** A repository made from a context answers exactly as one made from that context's helper. */
  lemma ContextConstructorIsHelperConstructor(context: UmbracoContext, id: Option<int>)
    ensures MediaExists(NewWithContext(context), id) == MediaExists(NewWithHelper(Some(HelperFor(context))), id)
    ensures MediaUrl(NewWithContext(context), id) == MediaUrl(NewWithHelper(Some(HelperFor(context))), id)
    ensures Content(NewWithContext(context), id) == Content(NewWithHelper(Some(HelperFor(context))), id)
  {
  }

  /** The id guards let a repository without a helper answer null and 0. */
  lemma GuardsNeedNoHelper(id: Option<int>)
    requires id.None? || id.value == 0
    ensures MediaExists(New(), id) == Success(false)
    ensures MediaUrl(New(), id) == Success("")
    ensures Content(New(), id) == Success(None)
    ensures Umbraco(New()).Failure?
  {
  }
}
