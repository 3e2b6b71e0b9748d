/**
 * Umbraco.PylonTools' `PublishedContentRepository`: the helper is required
 * at construction, and media items come wrapped in a `MediaFile`.
 *
 * `MediaFile`'s constructor rejects a null node (`ThrowIfNull`) and then
 * applies a further `ThrowIf` test whose meaning lives in an unseen helper
 * library; that test is the caller-supplied `rejects` predicate here.
 */
module ToolsRepository {
  import opened Wrappers
  import opened PublishedContent
  import opened Cms

  datatype Repository = Repository(umbraco: UmbracoHelper)

  /** A `MediaFile`: the media node it wraps. */
  datatype MediaFile = MediaFile(content: Node)

  /** The constructor: a null helper is an argument-null error. */
  function New(umbraco: Option<UmbracoHelper>): (r: Result<Repository>)
    ensures umbraco.None? <==> r == Failure(ArgumentNull("umbraco"))
    ensures umbraco.Some? ==> r == Success(Repository(umbraco.value))
  {
    match umbraco
    case None => Failure(ArgumentNull("umbraco"))
    case Some(h) => Success(Repository(h))
  }

  /** `new MediaFile(content)`: null content, or content the `ThrowIf` test rejects, is an argument error. */
  function NewMediaFile(content: Option<Node>, rejects: Node -> bool): (r: Result<MediaFile>)
    ensures content.None? ==> r == Failure(ArgumentNull("content"))
    ensures content.Some? && rejects(content.value) ==> r == Failure(ArgumentInvalid("content"))
    ensures content.Some? && !rejects(content.value) ==> r == Success(MediaFile(content.value))
  {
    match content
    case None => Failure(ArgumentNull("content"))
    case Some(c) => if rejects(c) then Failure(ArgumentInvalid("content")) else Success(MediaFile(c))
  }

  /** `MediaItem(id)`: null for null and 0 with no lookup; otherwise the helper's media node, wrapped. */
  function MediaItem(repo: Repository, id: Option<int>, rejects: Node -> bool): (r: Result<Option<MediaFile>>)
    ensures id.None? || id.value == 0 ==> r == Success(None)
    ensures id.Some? && id.value != 0 && id.value !in repo.umbraco.cache.media ==> r == Failure(ArgumentNull("content"))
    ensures id.Some? && id.value != 0 && id.value in repo.umbraco.cache.media ==>
              var node := repo.umbraco.cache.media[id.value];
              r == (if rejects(node) then Failure(ArgumentInvalid("content")) else Success(Some(MediaFile(node))))
  {
    if id.None? || id.value == 0 then Success(None)
    else
      var file :- NewMediaFile(TypedMedia(repo.umbraco, id.value), rejects);
      Success(Some(file))
  }

  /** `MediaExists(id)`: whether `MediaItem(id)` is non-null; its failures pass through. */
  function MediaExists(repo: Repository, id: Option<int>, rejects: Node -> bool): (r: Result<bool>)
    ensures r.Failure? <==> MediaItem(repo, id, rejects).Failure?
    ensures r.Success? ==> (r.value <==> MediaItem(repo, id, rejects).value.Some?)
  {
    var item :- MediaItem(repo, id, rejects);
    Success(item.Some?)
  }

  /**
   * `MediaExists` as its name promises: false for a missing media item rather
   * than the `MediaFile` constructor's null-argument failure.
   */
  function MediaExistsIntended(repo: Repository, id: Option<int>, rejects: Node -> bool): (r: Result<bool>)
    ensures id.None? || id.value == 0 ==> r == Success(false)
    ensures id.Some? && id.value != 0 && id.value !in repo.umbraco.cache.media ==> r == Success(false)
    ensures r.Success? && r.value ==> MediaItem(repo, id, rejects) == Success(Some(MediaFile(repo.umbraco.cache.media[id.value])))
    ensures id.Some? && id.value in repo.umbraco.cache.media ==> r == MediaExists(repo, id, rejects)
  {
    if id.Some? && id.value != 0 && TypedMedia(repo.umbraco, id.value).None? then Success(false)
    else MediaExists(repo, id, rejects)
  }

  /** `Content(id)`: null for null and 0 with no lookup; otherwise the helper's typed content. */
  function Content(repo: Repository, id: Option<int>): (r: Option<Node>)
    ensures id.None? || id.value == 0 ==> r.None?
    ensures id.Some? && id.value != 0 ==> r == Lookup(repo.umbraco.cache.content, id.value)
  {
    if id.None? || id.value == 0 then None else TypedContent(repo.umbraco, id.value)
  }

  /** `ContentExists(id)`: whether `Content(id)` is non-null. */
  function ContentExists(repo: Repository, id: Option<int>): (r: bool)
    ensures r <==> Content(repo, id).Some?
    ensures r <==> id.Some? && id.value != 0 && id.value in repo.umbraco.cache.content
  {
    Content(repo, id).Some?
  }

  /**
   * As written, `MediaExists` for a nonzero id whose media is missing throws
   * the `MediaFile` constructor's argument-null error instead of answering false.
   */
  lemma MediaExistsThrowsForMissingMedia(rejects: Node -> bool)
    ensures var repo := Repository(UmbracoHelper(PublishedCache(map[], map[])));
            && MediaExists(repo, Some(1), rejects) == Failure(ArgumentNull("content"))
            && MediaExistsIntended(repo, Some(1), rejects) == Success(false)
  {
  }

  /** The intended `MediaExists` never fails for a missing item and agrees with `MediaItem` elsewhere. */
  lemma MediaExistsIntendedAgrees(repo: Repository, id: Option<int>, rejects: Node -> bool)
    ensures MediaExistsIntended(repo, id, rejects).Failure? ==> MediaItem(repo, id, rejects).Failure?
    ensures MediaExistsIntended(repo, id, rejects).Failure? ==>
              id.Some? && id.value in repo.umbraco.cache.media && rejects(repo.umbraco.cache.media[id.value])
    ensures MediaItem(repo, id, rejects).Success? ==>
              MediaExistsIntended(repo, id, rejects) == MediaExists(repo, id, rejects)
  {
  }
}
