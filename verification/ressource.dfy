/** The resource state machine (`Ressource.parse`, `resolve`, `traverse`):
    a resource is either an unresolved stub (uri, rel, title) or a resolved
    page whose links and properties were extracted from its document. */
module Ressource {
  import opened Wrappers
  import opened Model
  import Links
  import Attrs

  /** `parse`: when `url` is non-empty the markup is read from it (and
      `markup` is ignored), otherwise `markup` is parsed; the result is a
      resolved resource identified by `url`, with an empty `rel` and title. */
  function Parse(url: string, markup: string, web: Web): (r: Result<Resource, Error>)
    ensures Source(url, markup, web).Failure? ==> r == Failure(Source(url, markup, web).error)
    ensures Source(url, markup, web).Success? ==>
      var doc := Source(url, markup, web).value;
      && (Links.ExtractLinks(doc).Failure? ==> r == Failure(MissingHref))
      && (Links.ExtractLinks(doc).Success? && Attrs.ExtractAttrs(doc).Failure? ==> r == Failure(DanglingTerm))
      && (r.Success? <==> Links.ExtractLinks(doc).Success? && Attrs.ExtractAttrs(doc).Success?)
    ensures r.Success? ==>
      && Source(url, markup, web).Success?
      && var doc := Source(url, markup, web).value;
      && r.value.resolved && r.value.doc == Some(doc)
      && r.value.uri == url && r.value.rel == "" && r.value.title == Some("")
      && Links.ExtractLinks(doc) == Success(r.value.links)
      && r.value.links == Links.LinkIndex(doc.elements)
      && Attrs.ExtractAttrs(doc) == Success(r.value.props)
      && Links.AllStubs(r.value.links)
      && Sound(r.value)
  {
    var doc :- Source(url, markup, web);
    var links :- Links.ExtractLinks(doc);
    var attrs :- Attrs.ExtractAttrs(doc);
    Links.LinkTable(doc);
    Success(New(Some(doc), Some(links), Some(attrs), url, "", Some("")))
  }

  /** The document `parse` works on: read from `url` when it is non-empty,
      in which case the markup plays no part, else parsed from `markup`
      without any read. */
  function Source(url: string, markup: string, web: Web): (r: Result<Document, Error>)
    ensures url != "" ==> r == Load(web, url)
    ensures url == "" ==> (r.Success? <==> web.parse(markup).Some?)
    ensures url == "" && r.Success? ==> r.value == web.parse(markup).value
    ensures url == "" && r.Failure? ==> r.error == ParseFailed
  {
    if url != "" then Load(web, url) else ParseMarkup(web, markup)
  }

  /** `resolve`: a resolved resource is returned as it is, without any
      read. An unresolved one is fetched from its URI; its document, then
      its links, then its merged properties and flag are assigned in turn,
      so a failure leaves the assignments made before it in place. On
      success the resource itself is returned. */
  function Resolve(r: Resource, web: Web): (c: Call<Resource>)
    ensures r.resolved ==> c == Call(r, Success(r))
    ensures c.state.uri == r.uri && c.state.rel == r.rel && c.state.title == r.title
    ensures c.ret.Success? ==> c.state.resolved && c.ret.value == c.state
    ensures c.ret.Failure? ==> !c.state.resolved
    ensures Sound(r) ==> Sound(c.state)
    ensures !r.resolved && c.ret.Success? ==>
      && Load(web, r.uri).Success?
      && var doc := Load(web, r.uri).value;
      && c.state.doc == Some(doc)
      && Links.ExtractLinks(doc) == Success(c.state.links)
      && c.state.links == Links.LinkIndex(doc.elements)
      && Attrs.ExtractAttrs(doc).Success?
      && c.state.props == r.props + Attrs.ExtractAttrs(doc).value
      && Links.AllStubs(c.state.links)
    ensures !r.resolved && Load(web, r.uri).Failure? ==> c == Call(r, Failure(Load(web, r.uri).error))
    ensures !r.resolved && Load(web, r.uri).Success? ==>
      var doc := Load(web, r.uri).value;
      && (Links.ExtractLinks(doc).Failure? ==>
            c == Call(r.(doc := Some(doc)), Failure(MissingHref)))
      && (Links.ExtractLinks(doc).Success? && Attrs.ExtractAttrs(doc).Failure? ==>
            c == Call(r.(doc := Some(doc), links := Links.LinkIndex(doc.elements)), Failure(DanglingTerm)))
      && (Links.ExtractLinks(doc).Success? && Attrs.ExtractAttrs(doc).Success? ==>
            c.state == r.(doc := Some(doc), links := Links.LinkIndex(doc.elements),
                          props := r.props + Attrs.ExtractAttrs(doc).value, resolved := true))
    ensures c.ret.Failure? <==>
      && !r.resolved
      && (|| Load(web, r.uri).Failure?
          || Links.ExtractLinks(Load(web, r.uri).value).Failure?
          || Attrs.ExtractAttrs(Load(web, r.uri).value).Failure?)
  {
    if r.resolved then Call(r, Success(r))
    else
      match Load(web, r.uri)
      case Failure(e) => Call(r, Failure(e))
      case Success(doc) =>
        var withDoc := r.(doc := Some(doc));
        match Links.ExtractLinks(doc)
        case Failure(e) => Call(withDoc, Failure(e))
        case Success(links) =>
          var withLinks := withDoc.(links := links);
          match Attrs.ExtractAttrs(doc)
          case Failure(e) => Call(withLinks, Failure(e))
          case Success(attrs) =>
            Links.LinkTable(doc);
            var done := withLinks.(props := withLinks.props + attrs, resolved := true);
            Call(done, Success(done))
  }

  /** `traverse`: resolve when unresolved, then return the list stored for
      `rel` as it is, or the empty list when `rel` has none. */
  function Traverse(r: Resource, rel: string, web: Web): (c: Call<seq<Resource>>)
    ensures c.state == Resolve(r, web).state
    ensures r.resolved ==> c.state == r && c.ret.Success?
    ensures c.ret.Failure? <==> Resolve(r, web).ret.Failure?
    ensures c.ret.Failure? ==> c.ret.error == Resolve(r, web).ret.error
    ensures c.ret.Success? ==> c.state.resolved
    ensures c.ret.Success? ==> c.ret.value == Links.Get(c.state.links, rel)
    ensures c.ret.Success? && (!r.resolved || Links.AllStubs(r.links)) ==>
      forall x :: x in c.ret.value ==> !x.resolved
  {
    var after := Resolve(r, web);
    match after.ret
    case Failure(e) => Call(after.state, Failure(e))
    case Success(_) =>
      var s := after.state;
      Call(s, Success(if rel in s.links then s.links[rel] else []))
  }

  // ---------------------------------------------------------------------
  // Lemmas
  // ---------------------------------------------------------------------

  /** `resolve` is idempotent: once it has succeeded, calling it again, on
      any network, changes nothing and reads nothing. */
  lemma ResolveIdempotent(r: Resource, web: Web, web': Web)
    requires Resolve(r, web).ret.Success?
    ensures var s := Resolve(r, web).state; Resolve(s, web') == Call(s, Success(s))
  {
  }

  /** A page is fetched at most once: after a successful traversal, any
      further traversal leaves the resource as it is and answers from the
      stored links whatever the network would now return. */
  lemma TraverseFetchesOnce(r: Resource, rel: string, rel': string, web: Web, web': Web)
    requires Traverse(r, rel, web).ret.Success?
    ensures var s := Traverse(r, rel, web).state;
      Traverse(s, rel', web') == Call(s, Success(Links.Get(s.links, rel')))
  {
  }

  /** Every resource the engine builds or updates keeps `Sound`: a
      resolved resource always holds a document. */
  lemma SoundPreserved(r: Resource, rel: string, url: string, markup: string, web: Web)
    requires Sound(r)
    ensures Sound(Resolve(r, web).state)
    ensures Sound(Traverse(r, rel, web).state)
    ensures Parse(url, markup, web).Success? ==> Sound(Parse(url, markup, web).value)
  {
  }

  /** The converse of `Sound` does not survive a failing `resolve`: when the
      fetched page has an anchor with `rel` but no `href`, the document has
      already been stored but the resource stays unresolved. */
  lemma PartialResolve()
    ensures
      var page := Document([Element("a", Some("next"), None, Some("next"))], []);
      var web := Web(uri => Some("<a rel=next>next</a>"), markup => Some(page));
      var stub := New(None, None, None, "http://example.org/", "", Some(""));
      var c := Resolve(stub, web);
      c.ret == Failure(MissingHref) && c.state.doc == Some(page) && !c.state.resolved
  {
    var page := Document([Element("a", Some("next"), None, Some("next"))], []);
    assert !Links.HrefsPresent(page.elements) by {
      assert Links.IsRelAnchor(page.elements[0]);
    }
  }

  /** A page with two relations and an anchor without `rel`: the table has
      exactly the two relations, and traversing one of them resolves
      nothing further and returns its unresolved stub. */
  lemma TraverseExample()
    ensures
      var articles := Element("a", Some("articles"), Some("articles.html"), Some("articles"));
      var authors := Element("a", Some("authors"), Some("authors.html"), Some("authors"));
      var plain := Element("a", None, Some("about.html"), Some("about"));
      var page := Document([articles, plain, authors], []);
      var web := Web(uri => Some("index"), markup => Some(page));
      var p := Parse("index.html", "", web);
      && p.Success?
      && p.value.links.Keys == {"articles", "authors"}
      && var c := Traverse(p.value, "articles", web);
      && c.ret == Success([Links.Stub(articles)])
      && !c.ret.value[0].resolved
      && c.ret.value[0].rel == "articles"
      && c.ret.value[0].title == Some("articles")
  {
    var articles := Element("a", Some("articles"), Some("articles.html"), Some("articles"));
    var authors := Element("a", Some("authors"), Some("authors.html"), Some("authors"));
    var plain := Element("a", None, Some("about.html"), Some("about"));
    var page := Document([articles, plain, authors], []);
    var web := Web(uri => Some("index"), markup => Some(page));
    ExamplePage(articles, authors, plain, page);
    assert Source("index.html", "", web) == Success(page);
    var p := Parse("index.html", "", web);
    assert p.Success?;
    assert p.value.links == Links.LinkIndex(page.elements);
  }

  lemma ExamplePage(articles: Element, authors: Element, plain: Element, page: Document)
    requires articles == Element("a", Some("articles"), Some("articles.html"), Some("articles"))
    requires authors == Element("a", Some("authors"), Some("authors.html"), Some("authors"))
    requires plain == Element("a", None, Some("about.html"), Some("about"))
    requires page == Document([articles, plain, authors], [])
    ensures Links.ExtractLinks(page).Success? && Attrs.ExtractAttrs(page).Success?
    ensures Links.LinkIndex(page.elements).Keys == {"articles", "authors"}
    ensures Links.LinkIndex(page.elements)["articles"] == [Links.Stub(articles)]
  {
    var es := page.elements;
    assert Links.HrefsPresent(es);
    assert Attrs.Flatten(page.dataLists) == [];
    assert Attrs.Definitions([]) == [];
    assert Links.Rels(es) == {"articles", "authors"} by {
      assert Links.IsRelAnchor(es[0]) && Links.IsRelAnchor(es[2]) && !Links.IsRelAnchor(es[1]);
    }
    assert Links.Bucket(es, "articles") == [Links.Stub(articles)] by {
      assert es[1..][1..][1..] == [];
      assert Links.Bucket(es[1..][1..], "articles") == [];
      assert Links.Bucket(es[1..], "articles") == [];
    }
  }
}
