# wdhypermedia resource engine in Dafny

This project models the hypermedia-resource engine of `wdhypermedia.py`,
the class `Ressource`. The engine treats an HTML page as a resource. The
page's anchors that carry a `rel` attribute become links to further
resources. The `dt`/`dd` pairs of its typed definition lists become the
resource's properties. A resource starts either resolved, when it is built
from a parsed document, or as an unresolved stub that knows only its
`uri`, `rel` and title. `resolve` fetches a stub's page once.
`traverse(rel)` resolves the resource and then returns the links stored
under one relation.

Layout, one module per file:

- `wrappers.dfy` (`Wrappers`): `Option` and `Result`.
- `model.dfy` (`Model`): the data model. It holds `Element`, `Document`,
  `Resource` and `Error`. `Web` stands for the network read and the HTML
  parser. `Call` is the state a call leaves behind together with its
  return value or exception. `New` is the constructor.
- `links.dfy` (`Links`): `_extract_links`, plus a reference definition of
  the link table (`Bucket`, `LinkIndex`) and the proofs that relate the two.
- `attrs.dfy` (`Attrs`): `_extract_attrs` and its characterisation.
- `ressource.dfy` (`Ressource`): `parse`, `resolve` and `traverse`.

Modelling choices:

- A parsed document is given as data. `Document.elements` lists every
  element in document order. The selector `a` is modelled as keeping the
  elements whose tag is `a`. `Document.dataLists` holds one list per
  element matched by `.typed.xoxo dl`: that element's descendants in
  document order.
- The network read and `html.fromstring` are the two functions of `Web`.
  Each returns `None` when the call would raise.
- Every exception the engine lets escape is a `Failure`:
  - `FetchFailed`: the read raised.
  - `ParseFailed`: the parser raised.
  - `MissingHref`: an anchor has `rel` but no `href`, so
    `link.attrib["href"]` raises a KeyError.
  - `DanglingTerm`: the `dt`/`dd` sequence ends with a `dt`, so
    `dl[i+1]` raises an IndexError.
- `resolve` mutates the object in place, one field at a time. A failing
  `resolve` therefore keeps the assignments made before the failure.
  `Resolve` returns the resulting state together with the outcome
  (`Call`).
- lxml's `.text` can be `None`. Titles, property names and property
  values are therefore `Option<string>`.
- Properties, which the source writes into the object's `__dict__`, are
  kept in the separate map `props`. `resolve` merges the new ones over the
  old ones (`props + attrs`), as `dict.update` does.
- The default `links=[]` is a Python list, not a dict. For `rel in
  self._links` it behaves like an empty table, so it is modelled as
  `map[]`.

What `wdhypermedia.py` does, and the model with it:

- `traverse` takes one relation.
- Every anchor with a `rel` is kept, including `rel="self"`.
- There is no embed handling and no URI cache: each extracted link is a
  fresh stub, even when two anchors share an `href`.
- A property has one value, the text of the element after the last `dt`
  with its name. The value is kept as text, with no typed decoding.

## Model

| member | source | states |
|---|---|---|
| Model.New | wdhypermedia.py:7-17 | a resource is resolved exactly when it is built with a document; `uri`, `rel` and title are stored as given; absent links and attributes mean empty ones |
| Links.Stub | wdhypermedia.py:30 | the link object of an anchor is unresolved, has no document, links or properties, and takes its `uri` from `href`, its `rel` from `rel` and its title from the anchor text |
| Links.Insert | wdhypermedia.py:31-34 | adding a stub under a relation creates the relation's list if it is new, appends at the end otherwise, and leaves every other relation's list unchanged |
| Links.ExtractLinks | wdhypermedia.py:26-35 | the extraction raises exactly when some anchor with `rel` lacks `href`; otherwise the table equals the reference table with one bucket per relation holding the stubs of that relation's anchors in document order |
| Links.Group | wdhypermedia.py:28-34 | the loop, started from any table, raises exactly when an anchor with `rel` lacks `href`, and otherwise appends each relation's bucket, in order, to what was already there |
| Links.BucketNonEmptyIffRel | wdhypermedia.py:28-34 | a relation's bucket is non-empty if and only if some anchor carries that relation |
| Links.BucketMembers | wdhypermedia.py:28-34 | a resource is in the bucket of `k` if and only if it is the stub of an anchor whose `rel` is `k`; anchors without `rel` appear in no bucket |
| Links.BucketConcat | wdhypermedia.py:28-34 | within a bucket, the anchors of an earlier part of the document come before those of a later part |
| Links.LinkTable | wdhypermedia.py:26-35 | the extracted table's keys are exactly the relations present; every bucket is non-empty; every anchor with `rel` is in its own relation's bucket; every bucket member is the stub of such an anchor; all are unresolved |
| Links.LinkCount | wdhypermedia.py:28-34 | summed over the relations, the buckets hold exactly one stub per anchor carrying `rel` |
| Links.ExtractLinksCount | wdhypermedia.py:26-35 | the same count stated on the extracted table, for any duplicate-free enumeration of its keys |
| Attrs.Flatten | wdhypermedia.py:45-47 | the descendants of all selected lists together form one sequence: every descendant of every list is in it, and nothing else is |
| Attrs.FlattenConcat | wdhypermedia.py:45-47 | the sequence is read list by list: the descendants of earlier lists come first, each list in its own order |
| Attrs.Definitions | wdhypermedia.py:48 | the filtered sequence holds only `dt` and `dd` elements |
| Attrs.DefinitionsMembers | wdhypermedia.py:48 | an element is in the filtered sequence if and only if it occurs among the descendants and is a `dt` or a `dd` |
| Attrs.OtherTagsIgnored | wdhypermedia.py:48 | adding an element of any other tag anywhere among the descendants leaves the filtered sequence unchanged |
| Attrs.ExtractAttrs | wdhypermedia.py:38-52 | the extraction raises exactly when the filtered sequence ends with a `dt`; otherwise the keys are exactly the texts of the `dt` elements, and each name maps to the text of the element after its last `dt`, whatever that element's tag |
| Attrs.Pair | wdhypermedia.py:49-51 | the loop from index `i`, started from any table, raises exactly when a trailing `dt` is still ahead; otherwise it adds every later name with the value after its last occurrence and keeps the entries of all other names |
| Attrs.TermStep | wdhypermedia.py:50-51 | one step at a `dt`, entering its name with the next element's text before the rest of the loop runs, builds what the loop from that index promises |
| Attrs.NameHasLastTerm | wdhypermedia.py:49-51 | every property name has a last `dt`, so the value rule of the extraction fixes every entry |
| Attrs.NamesAtMostTerms | wdhypermedia.py:49-51 | the number of distinct names is at most the number of `dt` elements |
| Attrs.AttrCount | wdhypermedia.py:43-52 | the extracted map has at most as many keys as there are `dt` elements |
| Attrs.PairingExample | wdhypermedia.py:44-51 | the descendants of several lists are read as one sequence; a `dt` followed by a `dt` takes that term's text; a repeated name keeps its last value; other tags are skipped |
| Attrs.DanglingExample | wdhypermedia.py:49-51 | a list ending with a `dt` makes the extraction raise |
| Model.Load | wdhypermedia.py:65-66 | reading and then parsing a URI fails with `FetchFailed` when the read raises and with `ParseFailed` when the parser raises; it succeeds exactly when both succeed, and then yields the parsed document; `parse` uses it too, at lines 57-58 |
| Ressource.Source | wdhypermedia.py:56-58 | `parse` reads its markup from `url` when `url` is non-empty, and the given markup then plays no part; with an empty `url` it parses the given markup without any read |
| Ressource.Parse | wdhypermedia.py:55-61 | on success the resource is resolved, holds the parsed document, has `uri` equal to `url` (`""` for inline markup) and empty `rel` and title, and its links and properties are the extraction of that document, all links unresolved stubs; a read or parse failure is returned as is; otherwise it fails with `MissingHref` when link extraction fails, which comes first, then with `DanglingTerm` when property extraction fails, and succeeds exactly when both succeed |
| Ressource.Resolve | wdhypermedia.py:63-71 | a resolved resource is returned unchanged without any read; for an unresolved one: a read or parse failure leaves it unchanged and is returned as is; a link-extraction failure leaves it holding the fetched document and raises `MissingHref`; a property failure leaves it holding the document and the extracted links and raises `DanglingTerm`; on success it holds the document, its links are exactly the extraction of that document, its properties are the old ones updated with the extracted ones, it is resolved, and it is returned itself; `uri`, `rel` and title never change |
| Ressource.Traverse | wdhypermedia.py:73-78 | leaves the resource in the state `resolve` leaves it in and fails with `resolve`'s own error when that fails; on success the resource is resolved and the result is the stored list for `rel` verbatim, or the empty list when `rel` has none; a resource that was already resolved is left unchanged; when its links are stubs the returned members are unresolved |
| Ressource.ResolveIdempotent | wdhypermedia.py:63-71 | once `resolve` has succeeded, calling it again on any network changes nothing and reads nothing |
| Ressource.TraverseFetchesOnce | wdhypermedia.py:73-78 | after a successful traversal, any further traversal answers from the stored links, whatever the network would now return |
| Ressource.SoundPreserved | wdhypermedia.py:10-12 | `parse`, `resolve` and `traverse` keep the invariant that a resolved resource holds a document |
| Ressource.PartialResolve | wdhypermedia.py:64-70 | a page with an anchor that has `rel` but no `href` leaves the resource holding the fetched document while still unresolved |
| Ressource.TraverseExample | wdhypermedia.py:55-78 | for a page with two relations and an anchor without `rel`, the table has exactly the two relations, and traversing one of them returns its unresolved stub with the anchor's `rel` and text |

## Left out

- HTML parsing (`html.fromstring`) and the selector queries (`cssselect`):
  they are foreign library calls. The parser is a function of `Web`, and
  the query results are the two fields of `Document`. The HTML-level rules
  are therefore not modelled: which elements `.typed.xoxo dl` matches, and
  how lxml lowercases tags and splits text into `.text` and `.tail`.
- The network read (`request.urlopen(...).read()`): it is I/O, modelled as
  the `read` function of `Web`. Bytes versus `str` is not distinguished.
- `self.__dict__.update(attrs)` as attribute injection: a property whose
  name collides with an internal field (`_links`, `_uri`, ...) would
  overwrite that field in Python. This is object-model behaviour. The
  model keeps properties in their own map instead.
- The unused `types` table in `_extract_attrs`: it has no effect on the
  result.
- `__str__` and `__repr__`: output formatting and object identity only.
- Object identity and aliasing: the model returns values, not shared
  objects. In Python, `resolve` returns `self`, and `traverse` returns the
  list object stored in `_links`. The members of that list are the same
  objects the parent keeps. So `projects[0].resolve()` in
  ex_traverse_resolve.py:5 resolves, in place, the member that the parent
  still stores. A later `res.traverse(rel)` then returns that member
  resolved. In the model, resolving a returned member yields a new value
  and leaves the parent's stored `Stub` unresolved.
- Ressource.Parse: its `AllStubs` clause holds when the resource is
  created. In Python it stops holding once a caller resolves one of the
  returned members in place.
- Ressource.Traverse: its clause that returned members are unresolved has
  the same limit. It holds for the list as extracted, not after a caller
  has resolved one of the shared members in place.
- The tests and the example script: they call an API that
  `wdhypermedia.py` does not define. This includes `Resource`,
  `ResourceList`, `Client`, `props`, `forms`, and `traverse` with a list of
  relations. Those files are not modelled.
