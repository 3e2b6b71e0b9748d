/**
 * `Link`: a URL with display text and a new-tab flag, built either from
 * explicit values or from a content node.
 */
module Link {
  import opened Wrappers
  import opened Text
  import opened PublishedContent

  datatype Link = Link(url: string, text: string, openInNewTab: bool)

  /** A string argument that is neither null nor empty. */
  predicate Present(s: Option<string>) {
    s.Some? && s.value != ""
  }

  /**
   * The explicit constructor: the url and then the text must be non-null and
   * non-empty; the new-tab flag defaults to false.
   */
  function NewLink(url: Option<string>, text: Option<string>, openInNewTab: bool := false): (r: Result<Link>)
    ensures r.Success? <==> Present(url) && Present(text)
    ensures !Present(url) ==> r == Failure(ArgumentNullOrEmpty("url"))
    ensures Present(url) && !Present(text) ==> r == Failure(ArgumentNullOrEmpty("text"))
    ensures r.Success? ==> r.value == Link(url.value, text.value, openInNewTab)
  {
    if !Present(url) then Failure(ArgumentNullOrEmpty("url"))
    else if !Present(text) then Failure(ArgumentNullOrEmpty("text"))
    else Success(Link(url.value, text.value, openInNewTab))
  }

  /** The text a content link shows: the given text unless it is blank, else the content's name. */
  function LinkText(content: Node, text: Option<string>): (r: string)
    ensures IsNullOrWhiteSpace(text) ==> r == content.name
    ensures !IsNullOrWhiteSpace(text) ==> r == text.value
  {
    if IsNullOrWhiteSpace(text) then content.name else text.value
  }

  /**
   * The content constructor: a null node is rejected; otherwise the explicit
   * constructor applied to the node's URL and the chosen text. The text
   * defaults to "" and so to the node's name.
   */
  function NewContentLink(content: Option<Node>, text: Option<string> := Some(""), openInNewTab: bool := false): (r: Result<Link>)
    ensures content.None? ==> r == Failure(ArgumentNull("content"))
    ensures content.Some? ==> r == NewLink(Some(content.value.url), Some(LinkText(content.value, text)), openInNewTab)
    ensures r.Success? ==> r.value.url == content.value.url && r.value.openInNewTab == openInNewTab
  {
    match content
    case None => Failure(ArgumentNull("content"))
    case Some(c) => NewLink(Some(c.url), Some(LinkText(c, text)), openInNewTab)
  }

  /** `Target`: "_blank" for a link opening in a new tab, "_self" otherwise. */
  function Target(link: Link): (r: string)
    ensures r == "_blank" <==> link.openInNewTab
    ensures r == "_self" <==> !link.openInNewTab
  {
    if link.openInNewTab then "_blank" else "_self"
  }

  /** `ToString()`: the URL. */
  function ToString(link: Link): (r: string)
    ensures r == link.url
  {
    link.url
  }

  /** Assigning `OpenInNewTab`. */
  function SetOpenInNewTab(link: Link, value: bool): (r: Link)
    ensures r.openInNewTab == value && r.url == link.url && r.text == link.text
  {
    link.(openInNewTab := value)
  }

  /** Both constructors default to a link that opens in the same tab. */
  lemma DefaultTargetIsSelf(url: Option<string>, text: Option<string>, content: Option<Node>)
    ensures NewLink(url, text).Success? ==> Target(NewLink(url, text).value) == "_self"
    ensures NewContentLink(content).Success? ==> Target(NewContentLink(content).value) == "_self"
    ensures NewContentLink(content, text).Success? ==> Target(NewContentLink(content, text).value) == "_self"
  {
  }

  /**
   * A content link keeps non-blank text verbatim and shows the name for blank
   * text; with blank text and an empty name it is rejected; its `ToString()`
   * is the node's URL.
   */
  lemma ContentLinkText(content: Node, text: Option<string>, openInNewTab: bool)
    requires content.url != ""
    ensures !IsNullOrWhiteSpace(text) ==> NewContentLink(Some(content), text, openInNewTab) == Success(Link(content.url, text.value, openInNewTab))
    ensures IsNullOrWhiteSpace(text) && content.name != "" ==>
              NewContentLink(Some(content), text, openInNewTab) == Success(Link(content.url, content.name, openInNewTab))
    ensures IsNullOrWhiteSpace(text) && content.name == "" ==>
              NewContentLink(Some(content), text, openInNewTab) == Failure(ArgumentNullOrEmpty("text"))
    ensures NewContentLink(Some(content), text, openInNewTab).Success? ==>
              ToString(NewContentLink(Some(content), text, openInNewTab).value) == content.url
  {
  }
}
