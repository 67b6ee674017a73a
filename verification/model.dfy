/** The data model of the hypermedia client: parsed documents as lxml hands
    them to the engine, the resource record, the exceptions the engine can
    raise, and the collaborators (network and HTML parser) it calls. */
module Model {
  import opened Wrappers

  /** One element of a parsed HTML document: its tag, its `rel` and `href`
      attributes when present, and its leading text (`None` when the element
      is empty or starts with a child element). */
  datatype Element = Element(tag: string, rel: Option<string>, href: Option<string>, text: Option<string>)

  /** A parsed document, reduced to the two queries the engine runs on it:
      `elements` is every element in document order (the selector `a` keeps
      the anchors among them), and `dataLists` holds, for each element the
      selector `.typed.xoxo dl` matches, its descendants in document order
      (what the selector `*` returns on it). */
  datatype Document = Document(elements: seq<Element>, dataLists: seq<seq<Element>>)

  /** A hypermedia resource. `links` maps a relation to its ordered list of
      resources; `props` holds the name/value pairs of the page's definition
      lists, which the source injects as object attributes. */
  datatype Resource = Resource(
    doc: Option<Document>,
    links: map<string, seq<Resource>>,
    props: map<Option<string>, Option<string>>,
    uri: string,
    rel: string,
    title: Option<string>,
    resolved: bool)

  type LinkMap = map<string, seq<Resource>>
  type PropMap = map<Option<string>, Option<string>>

  /** The exceptions the engine lets escape: the network read failed, the
      markup did not parse, an anchor with `rel` has no `href` (a KeyError),
      or a definition list ends with a term (an IndexError). */
  datatype Error = FetchFailed(uri: string) | ParseFailed | MissingHref | DanglingTerm

  /** The collaborators: `read` is the network read of a URI, `parse` turns
      markup into a document; `None` stands for the call raising. */
  datatype Web = Web(read: string -> Option<string>, parse: string -> Option<Document>)

  /** The state a resource is left in by a call, and what the call returned
      or raised. The source mutates the resource in place, so a call that
      raises midway still leaves its earlier assignments behind. */
  datatype Call<+T> = Call(state: Resource, ret: Result<T, Error>)

  /** A resource never claims to be resolved without holding a document. */
  predicate Sound(r: Resource) {
    r.resolved ==> r.doc.Some?
  }

  /** The resource constructor: absent `links` and `attrs` mean empty ones,
      and the resource is resolved exactly when it is given a document. */
  function New(doc: Option<Document>, links: Option<LinkMap>, attrs: Option<PropMap>,
               uri: string, rel: string, title: Option<string>): (r: Resource)
    ensures r.resolved <==> doc.Some?
    ensures r.doc == doc && r.uri == uri && r.rel == rel && r.title == title
    ensures r.links == links.GetOr(map[]) && r.props == attrs.GetOr(map[])
    ensures Sound(r)
  {
    Resource(doc, links.GetOr(map[]), attrs.GetOr(map[]), uri, rel, title, doc.Some?)
  }

  /** Reads `uri` and parses what was read: the first two steps of `resolve`
      and of `parse` given a URL. */
  function Load(web: Web, uri: string): (r: Result<Document, Error>)
    ensures web.read(uri).None? ==> r == Failure(FetchFailed(uri))
    ensures web.read(uri).Some? && web.parse(web.read(uri).value).None? ==> r == Failure(ParseFailed)
    ensures r.Success? <==> web.read(uri).Some? && web.parse(web.read(uri).value).Some?
    ensures r.Success? ==> r.value == web.parse(web.read(uri).value).value
  {
    var markup :- Read(web, uri);
    ParseMarkup(web, markup)
  }

  function Read(web: Web, uri: string): Result<string, Error> {
    match web.read(uri)
    case None => Failure(FetchFailed(uri))
    case Some(markup) => Success(markup)
  }

  function ParseMarkup(web: Web, markup: string): Result<Document, Error> {
    match web.parse(markup)
    case None => Failure(ParseFailed)
    case Some(doc) => Success(doc)
  }
}
