/** Link extraction (`Ressource._extract_links`): every anchor that carries a
    `rel` becomes an unresolved stub resource, grouped by relation in
    document order. */
module Links {
  import opened Wrappers
  import opened Model
  import opened Sequences

  /** An anchor the extraction keeps: tag `a` with a `rel` attribute. */
  predicate IsRelAnchor(e: Element) {
    e.tag == "a" && e.rel.Some?
  }

  /** Every kept anchor has an `href`; otherwise the source raises. */
  predicate HrefsPresent(es: seq<Element>) {
    forall i :: 0 <= i < |es| && IsRelAnchor(es[i]) ==> es[i].href.Some?
  }

  /** The unresolved resource an anchor stands for: built by the constructor
      from the anchor's `href`, `rel` and text. */
  function Stub(e: Element): (r: Resource)
    requires IsRelAnchor(e) && e.href.Some?
    ensures !r.resolved && r.doc.None? && r.links == map[] && r.props == map[]
    ensures r.uri == e.href.value && r.rel == e.rel.value && r.title == e.text
  {
    New(None, None, None, e.href.value, e.rel.value, e.text)
  }

  /** The loop of the source: walk the elements in order, append the stub of
      each kept anchor to the list of its relation, creating the list at the
      relation's first anchor. Started from any table, it raises exactly when
      a kept anchor lacks `href`, and otherwise appends each relation's
      bucket of the reference table to what was there. */
  function Group(es: seq<Element>, links: LinkMap): (r: Result<LinkMap, Error>)
    ensures r.Failure? <==> !HrefsPresent(es)
    ensures r.Failure? ==> r.error == MissingHref
    ensures r.Success? ==> r.value == Append(links, LinkIndex(es))
    decreases |es|
  {
    if |es| == 0 then
      AppendNothing(links, es);
      Success(links)
    else
      var e := es[0];
      HrefsCons(es);
      if IsRelAnchor(e) && e.href.None? then Failure(MissingHref)
      else
        var links' := if IsRelAnchor(e) then Insert(links, e.rel.value, Stub(e)) else links;
        var r := Group(es[1..], links');
        if HrefsPresent(es) then StepAppend(es, links, links'); r else r
  }

  /** Appends `stub` to the list of `k`, creating the list when `k` is new. */
  function Insert(links: LinkMap, k: string, stub: Resource): (r: LinkMap)
    ensures r.Keys == links.Keys + {k}
    ensures forall k' :: Get(r, k') == Get(links, k') + (if k' == k then [stub] else [])
  {
    if k in links then links[k := links[k] + [stub]] else links[k := [stub]]
  }

  // ---------------------------------------------------------------------
  // Reference definition: the bucket of a relation is the stubs of the
  // anchors carrying that relation, in document order.
  // ---------------------------------------------------------------------

  /** The stubs of the anchors of `es` whose relation is `k`, in order. */
  function Bucket(es: seq<Element>, k: string): seq<Resource>
    requires HrefsPresent(es)
  {
    if |es| == 0 then []
    else
      (if IsRelAnchor(es[0]) && es[0].rel.value == k then [Stub(es[0])] else [])
      + Bucket(es[1..], k)
  }

  /** The relations that some kept anchor of `es` carries. */
  function Rels(es: seq<Element>): set<string> {
    set i | 0 <= i < |es| && IsRelAnchor(es[i]) :: es[i].rel.value
  }

  /** The kept anchors of `es`, in order. */
  function RelAnchors(es: seq<Element>): seq<Element> {
    if |es| == 0 then []
    else (if IsRelAnchor(es[0]) then [es[0]] else []) + RelAnchors(es[1..])
  }

  /** The expected link table: one bucket per relation present. */
  function LinkIndex(es: seq<Element>): LinkMap
    requires HrefsPresent(es)
  {
    map k | k in Rels(es) :: Bucket(es, k)
  }

  /** The list stored for `k`, or the empty list. */
  function Get(m: LinkMap, k: string): seq<Resource> {
    if k in m then m[k] else []
  }

  /** `acc` with the buckets of `m` appended relation by relation. */
  function Append(acc: LinkMap, m: LinkMap): LinkMap {
    map k | k in acc.Keys + m.Keys :: Get(acc, k) + Get(m, k)
  }

  /** `_extract_links` on a document: it raises exactly when some kept
      anchor lacks an `href`, and otherwise returns the reference table. */
  function ExtractLinks(doc: Document): (r: Result<LinkMap, Error>)
    ensures r.Failure? <==> !HrefsPresent(doc.elements)
    ensures r.Failure? ==> r.error == MissingHref
    ensures r.Success? ==> r.value == LinkIndex(doc.elements)
  {
    var r := Group(doc.elements, map[]);
    if HrefsPresent(doc.elements) then AppendToEmpty(LinkIndex(doc.elements)); r else r
  }

  // ---------------------------------------------------------------------
  // Lemmas
  // ---------------------------------------------------------------------

  lemma {:induction false} RelsCons(es: seq<Element>)
    requires |es| > 0
    ensures Rels(es) == (if IsRelAnchor(es[0]) then {es[0].rel.value} else {}) + Rels(es[1..])
  {
  }

  /** A relation has a non-empty bucket exactly when some anchor carries it. */
  lemma {:induction false} BucketNonEmptyIffRel(es: seq<Element>, k: string)
    requires HrefsPresent(es)
    ensures |Bucket(es, k)| > 0 <==> k in Rels(es)
    decreases |es|
  {
    if |es| > 0 {
      TailHrefs(es);
      BucketNonEmptyIffRel(es[1..], k);
      RelsCons(es);
    }
  }

  lemma TailHrefs(es: seq<Element>)
    requires |es| > 0 && HrefsPresent(es)
    ensures HrefsPresent(es[1..])
  {
  }

  /** Looking a relation up in the reference table yields its bucket. */
  lemma GetLinkIndex(es: seq<Element>, k: string)
    requires HrefsPresent(es)
    ensures Get(LinkIndex(es), k) == Bucket(es, k)
  {
    BucketNonEmptyIffRel(es, k);
  }

  lemma AppendToEmpty(m: LinkMap)
    ensures Append(map[], m) == m
  {
    assert forall k :: k in m ==> Get(map[], k) + Get(m, k) == m[k];
  }

  lemma {:induction false} HrefsCons(es: seq<Element>)
    requires |es| > 0
    ensures HrefsPresent(es) <==> (IsRelAnchor(es[0]) ==> es[0].href.Some?) && HrefsPresent(es[1..])
  {
  }

  lemma GetAppend(acc: LinkMap, m: LinkMap, k: string)
    ensures Get(Append(acc, m), k) == Get(acc, k) + Get(m, k)
  {
  }

  lemma AppendKeys(acc: LinkMap, m: LinkMap)
    ensures Append(acc, m).Keys == acc.Keys + m.Keys
  {
  }

  lemma {:induction false} StepKeys(es: seq<Element>, acc: LinkMap, acc': LinkMap)
    requires |es| > 0 && HrefsPresent(es) && HrefsPresent(es[1..])
    requires acc' == if IsRelAnchor(es[0]) then Insert(acc, es[0].rel.value, Stub(es[0])) else acc
    ensures Append(acc', LinkIndex(es[1..])).Keys == Append(acc, LinkIndex(es)).Keys
  {
    RelsCons(es);
    AppendKeys(acc', LinkIndex(es[1..]));
    AppendKeys(acc, LinkIndex(es));
  }

  lemma {:induction false} StepValue(es: seq<Element>, acc: LinkMap, acc': LinkMap, k: string)
    requires |es| > 0 && HrefsPresent(es) && HrefsPresent(es[1..])
    requires acc' == if IsRelAnchor(es[0]) then Insert(acc, es[0].rel.value, Stub(es[0])) else acc
    ensures Get(Append(acc', LinkIndex(es[1..])), k) == Get(Append(acc, LinkIndex(es)), k)
  {
    var e := es[0];
    GetLinkIndex(es[1..], k);
    GetLinkIndex(es, k);
    GetAppend(acc', LinkIndex(es[1..]), k);
    GetAppend(acc, LinkIndex(es), k);
    var hit: seq<Resource> := if IsRelAnchor(e) && e.rel.value == k then [Stub(e)] else [];
    assert Get(acc', k) == Get(acc, k) + hit;
    assert Bucket(es, k) == hit + Bucket(es[1..], k);
    ConcatAssoc(Get(acc, k), hit, Bucket(es[1..], k));
  }

  /** One step of the loop: inserting the head's stub and then appending
      the tail's buckets is appending the whole sequence's buckets. */
  lemma {:induction false} StepAppend(es: seq<Element>, acc: LinkMap, acc': LinkMap)
    requires |es| > 0 && HrefsPresent(es)
    requires acc' == if IsRelAnchor(es[0]) then Insert(acc, es[0].rel.value, Stub(es[0])) else acc
    ensures HrefsPresent(es[1..])
    ensures Append(acc', LinkIndex(es[1..])) == Append(acc, LinkIndex(es))
  {
    TailHrefs(es);
    var lhs := Append(acc', LinkIndex(es[1..]));
    var rhs := Append(acc, LinkIndex(es));
    StepKeys(es, acc, acc');
    forall k | k in lhs.Keys ensures lhs[k] == rhs[k] {
      StepValue(es, acc, acc', k);
    }
  }

  /** Appending the empty document's table changes nothing. */
  lemma AppendNothing(acc: LinkMap, es: seq<Element>)
    requires |es| == 0
    ensures HrefsPresent(es) && Append(acc, LinkIndex(es)) == acc
  {
    assert Rels(es) == {};
    assert LinkIndex(es) == map[];
    assert forall k :: k in acc ==> Get(acc, k) + Get(map[], k) == acc[k];
  }

  // ---------------------------------------------------------------------
  // Properties of the extracted table
  // ---------------------------------------------------------------------

  /** A stub is in the bucket of `k` exactly when it is the stub of some
      anchor carrying relation `k`: anchors without `rel` appear nowhere. */
  lemma {:induction false} BucketMembers(es: seq<Element>, k: string, x: Resource)
    requires HrefsPresent(es)
    ensures x in Bucket(es, k) <==>
      exists i :: 0 <= i < |es| && IsRelAnchor(es[i]) && es[i].href.Some? && es[i].rel.value == k && x == Stub(es[i])
    decreases |es|
  {
    if |es| > 0 {
      TailHrefs(es);
      BucketMembers(es[1..], k, x);
      if x in Bucket(es[1..], k) {
        var i :| 0 <= i < |es[1..]| && IsRelAnchor(es[1..][i]) && es[1..][i].href.Some?
                 && es[1..][i].rel.value == k && x == Stub(es[1..][i]);
        assert es[i + 1] == es[1..][i];
      }
      if exists i :: 0 <= i < |es| && IsRelAnchor(es[i]) && es[i].href.Some? && es[i].rel.value == k && x == Stub(es[i]) {
        var i :| 0 <= i < |es| && IsRelAnchor(es[i]) && es[i].href.Some? && es[i].rel.value == k && x == Stub(es[i]);
        if i > 0 {
          assert es[1..][i - 1] == es[i];
        }
      }
    }
  }

  /** Document order is kept: the anchors of an earlier part of the
      document come before those of a later part in every bucket. */
  lemma {:induction false} BucketConcat(a: seq<Element>, b: seq<Element>, k: string)
    requires HrefsPresent(a + b)
    ensures HrefsPresent(a) && HrefsPresent(b)
    ensures Bucket(a + b, k) == Bucket(a, k) + Bucket(b, k)
    decreases |a|
  {
    assert HrefsPresent(a) by {
      forall i | 0 <= i < |a| && IsRelAnchor(a[i]) ensures a[i].href.Some? {
        assert (a + b)[i] == a[i];
      }
    }
    assert HrefsPresent(b) by {
      forall i | 0 <= i < |b| && IsRelAnchor(b[i]) ensures b[i].href.Some? {
        assert (a + b)[|a| + i] == b[i];
      }
    }
    if |a| > 0 {
      assert (a + b)[1..] == a[1..] + b;
      BucketConcat(a[1..], b, k);
      ConcatAssoc(if IsRelAnchor(a[0]) && a[0].rel.value == k then [Stub(a[0])] else [], Bucket(a[1..], k), Bucket(b, k));
    } else {
      assert a + b == b;
    }
  }

  /** Every extracted link is an unresolved stub. */
  predicate AllStubs(m: LinkMap) {
    forall k, x :: k in m && x in m[k] ==> !x.resolved && x.doc.None?
  }

  /** What the extraction promises about its table when it succeeds: one
      non-empty bucket per relation present, each holding exactly the stubs
      of the anchors that carry that relation, all unresolved. */
  lemma LinkTable(doc: Document)
    requires ExtractLinks(doc).Success?
    ensures var m := ExtractLinks(doc).value; var es := doc.elements;
      && m.Keys == Rels(es)
      && (forall k :: k in m ==> |m[k]| > 0)
      && (forall i :: 0 <= i < |es| && IsRelAnchor(es[i]) ==>
            es[i].href.Some? && es[i].rel.value in m && Stub(es[i]) in m[es[i].rel.value])
      && (forall k, x :: k in m && x in m[k] ==>
            exists i :: 0 <= i < |es| && IsRelAnchor(es[i]) && es[i].href.Some? && es[i].rel.value == k && x == Stub(es[i]))
      && AllStubs(m)
  {
    var m := ExtractLinks(doc).value;
    var es := doc.elements;
    forall k | k in m ensures |m[k]| > 0 {
      BucketNonEmptyIffRel(es, k);
    }
    forall i | 0 <= i < |es| && IsRelAnchor(es[i])
      ensures es[i].href.Some? && es[i].rel.value in m && Stub(es[i]) in m[es[i].rel.value]
    {
      BucketMembers(es, es[i].rel.value, Stub(es[i]));
    }
    forall k, x | k in m && x in m[k]
      ensures exists i :: 0 <= i < |es| && IsRelAnchor(es[i]) && es[i].href.Some? && es[i].rel.value == k && x == Stub(es[i])
    {
      BucketMembers(es, k, x);
    }
  }

  // ---------------------------------------------------------------------
  // Counting: the buckets together hold one stub per kept anchor.
  // ---------------------------------------------------------------------

  /** The number of stubs in the buckets of the relations `ks`. */
  function Total(m: LinkMap, ks: seq<string>): nat {
    if |ks| == 0 then 0 else |Get(m, ks[0])| + Total(m, ks[1..])
  }

  predicate Distinct(ks: seq<string>) {
    forall i, j :: 0 <= i < j < |ks| ==> ks[i] != ks[j]
  }

  /** How often `k` occurs in `ks`. */
  function Occurrences(ks: seq<string>, k: string): nat {
    if |ks| == 0 then 0 else (if ks[0] == k then 1 else 0) + Occurrences(ks[1..], k)
  }

  lemma {:induction false} OccurrencesDistinct(ks: seq<string>, k: string)
    requires Distinct(ks)
    ensures Occurrences(ks, k) == if k in ks then 1 else 0
    decreases |ks|
  {
    if |ks| > 0 {
      assert Distinct(ks[1..]) by {
        forall i, j | 0 <= i < j < |ks[1..]| ensures ks[1..][i] != ks[1..][j] {
          assert ks[1..][i] == ks[i + 1] && ks[1..][j] == ks[j + 1];
        }
      }
      OccurrencesDistinct(ks[1..], k);
      assert ks == [ks[0]] + ks[1..];
      if ks[0] == k {
        assert k !in ks[1..] by {
          forall j | 0 <= j < |ks[1..]| ensures ks[1..][j] != k {
            assert ks[1..][j] == ks[j + 1];
          }
        }
      }
    }
  }

  /** Removing the head anchor removes one stub from the bucket of its
      relation, once for each time that relation is listed. */
  lemma {:induction false} TotalCons(es: seq<Element>, ks: seq<string>)
    requires |es| > 0 && HrefsPresent(es)
    ensures HrefsPresent(es[1..])
    ensures Total(LinkIndex(es), ks)
         == (if IsRelAnchor(es[0]) then Occurrences(ks, es[0].rel.value) else 0) + Total(LinkIndex(es[1..]), ks)
    decreases |ks|
  {
    TailHrefs(es);
    if |ks| > 0 {
      TotalCons(es, ks[1..]);
      GetLinkIndex(es, ks[0]);
      GetLinkIndex(es[1..], ks[0]);
    }
  }

  lemma {:induction false} TotalEmpty(ks: seq<string>)
    ensures Total(map[], ks) == 0
    decreases |ks|
  {
    if |ks| > 0 {
      TotalEmpty(ks[1..]);
    }
  }

  /** Summed over any duplicate-free list of relations that covers every
      relation present, the buckets hold one stub per kept anchor. */
  lemma {:induction false} LinkCount(es: seq<Element>, ks: seq<string>)
    requires HrefsPresent(es) && Distinct(ks) && Rels(es) <= set k | k in ks
    ensures Total(LinkIndex(es), ks) == |RelAnchors(es)|
    decreases |es|
  {
    if |es| == 0 {
      assert Rels(es) == {};
      assert LinkIndex(es) == map[];
      TotalEmpty(ks);
    } else {
      TotalCons(es, ks);
      RelsCons(es);
      LinkCount(es[1..], ks);
      if IsRelAnchor(es[0]) {
        OccurrencesDistinct(ks, es[0].rel.value);
      }
    }
  }

  /** The same count, stated on `_extract_links` for an enumeration of the
      relations of the returned table. */
  lemma ExtractLinksCount(doc: Document, ks: seq<string>)
    requires ExtractLinks(doc).Success?
    requires Distinct(ks) && (set k | k in ks) == ExtractLinks(doc).value.Keys
    ensures Total(ExtractLinks(doc).value, ks) == |RelAnchors(doc.elements)|
  {
    LinkCount(doc.elements, ks);
  }
}
