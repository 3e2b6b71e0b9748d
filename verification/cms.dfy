/**
 * Stand-ins for the CMS objects the library is handed: the published cache
 * behind an `UmbracoContext`, and the `UmbracoHelper` built from it. Their
 * lookups are maps supplied as input.
 */
module Cms {
  import opened Wrappers
  import opened PublishedContent

  /** The published content and media trees, by node id. */
  datatype PublishedCache = PublishedCache(content: map<int, Node>, media: map<int, Node>)

  /** An `UmbracoContext`: the request's view of the published cache. */
  datatype UmbracoContext = UmbracoContext(cache: PublishedCache)

  /** An `UmbracoHelper`: lookups over a published cache. */
  datatype UmbracoHelper = UmbracoHelper(cache: PublishedCache)

  /** `new UmbracoHelper(context)`. */
  function HelperFor(context: UmbracoContext): (h: UmbracoHelper)
    ensures h.cache == context.cache
  {
    UmbracoHelper(context.cache)
  }

  /** `TypedMedia(id)`: the media node, or null. */
  function TypedMedia(h: UmbracoHelper, id: int): (r: Option<Node>)
    ensures r == Lookup(h.cache.media, id)
  {
    Lookup(h.cache.media, id)
  }

  /** `TypedContent(id)`: the content node, or null. */
  function TypedContent(h: UmbracoHelper, id: int): (r: Option<Node>)
    ensures r == Lookup(h.cache.content, id)
  {
    Lookup(h.cache.content, id)
  }

  /** `Content(id)`: the content node as a dynamic value, the null marker when there is none. */
  function DynamicContent(h: UmbracoHelper, id: int): (r: DynamicValue)
    ensures id in h.cache.content ==> r == DynamicNode(h.cache.content[id])
    ensures id !in h.cache.content ==> r == DynamicNull
  {
    if id in h.cache.content then DynamicNode(h.cache.content[id]) else DynamicNull
  }
}
