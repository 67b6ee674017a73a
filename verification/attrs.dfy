/** Property extraction (`Ressource._extract_attrs`): the `dt`/`dd` elements
    below the page's typed definition lists are read pairwise, each term
    taking the text of the element right after it. */
module Attrs {
  import opened Wrappers
  import opened Model
  import opened Sequences

  predicate IsTerm(e: Element) {
    e.tag == "dt"
  }

  predicate IsTermOrDefinition(e: Element) {
    e.tag == "dt" || e.tag == "dd"
  }

  /** The descendants of every selected list, one list after the other. */
  function Flatten(lists: seq<seq<Element>>): (r: seq<Element>)
    ensures forall i, j :: 0 <= i < |lists| && 0 <= j < |lists[i]| ==> lists[i][j] in r
    ensures forall e :: e in r ==> exists i :: 0 <= i < |lists| && e in lists[i]
  {
    if |lists| == 0 then []
    else
      var r := lists[0] + Flatten(lists[1..]);
      assert forall i :: 0 < i < |lists| ==> lists[i] == lists[1..][i - 1];
      r
  }

  /** The `dt` and `dd` elements of `es`, in order. */
  function Definitions(es: seq<Element>): (r: seq<Element>)
    ensures forall i :: 0 <= i < |r| ==> IsTermOrDefinition(r[i])
  {
    if |es| == 0 then []
    else (if IsTermOrDefinition(es[0]) then [es[0]] else []) + Definitions(es[1..])
  }

  /** The loop of the source from index `i` on, started with the table
      `attrs`: a term at `i` maps its text to the text of element `i + 1`,
      whatever that element is, and a term in the last position has no
      successor, so the lookup raises. Hence the loop raises exactly when a
      term is last and not yet passed; otherwise it adds every later name
      with the value after its last occurrence and keeps every other entry. */
  function Pair(dl: seq<Element>, i: nat, attrs: PropMap): (r: Result<PropMap, Error>)
    requires i <= |dl|
    ensures r.Failure? <==> i < |dl| && Dangling(dl)
    ensures r.Failure? ==> r.error == DanglingTerm
    ensures r.Success? ==> PairedFrom(dl, i, attrs, r.value)
    decreases |dl| - i
  {
    if i == |dl| then
      assert Names(dl, i) == {};
      Success(attrs)
    else if IsTerm(dl[i]) then
      if i + 1 == |dl| then Failure(DanglingTerm)
      else
        var r := Pair(dl, i + 1, attrs[dl[i].text := dl[i + 1].text]);
        if r.Success? then TermStep(dl, i, attrs, r.value); r else r
    else
      NamesStep(dl, i);
      Pair(dl, i + 1, attrs)
  }

  /** `_extract_attrs` on a document. */
  function ExtractAttrs(doc: Document): (r: Result<PropMap, Error>)
    ensures var dl := Definitions(Flatten(doc.dataLists));
      && (r.Failure? <==> Dangling(dl))
      && (r.Failure? ==> r.error == DanglingTerm)
      && (r.Success? ==> r.value.Keys == Names(dl, 0))
      && (r.Success? ==> forall j :: 0 <= j < |dl| - 1 && IsLastTerm(dl, j) ==> r.value[dl[j].text] == dl[j + 1].text)
  {
    var dl := Definitions(Flatten(doc.dataLists));
    Pair(dl, 0, map[])
  }

  // ---------------------------------------------------------------------
  // Reference notions
  // ---------------------------------------------------------------------

  /** The list ends with a term, which has no definition to pair with. */
  predicate Dangling(dl: seq<Element>) {
    |dl| > 0 && IsTerm(dl[|dl| - 1])
  }

  /** The names of the terms at index `i` or later. */
  function Names(dl: seq<Element>, i: nat): set<Option<string>> {
    set j | i <= j < |dl| && IsTerm(dl[j]) :: dl[j].text
  }

  /** The term at `j` is the last term with its name. */
  predicate IsLastTerm(dl: seq<Element>, j: int)
    requires 0 <= j < |dl|
  {
    IsTerm(dl[j]) && forall k :: j < k < |dl| && IsTerm(dl[k]) ==> dl[k].text != dl[j].text
  }

  /** The number of terms at index `i` or later. */
  function TermCount(dl: seq<Element>, i: nat): nat
    requires i <= |dl|
    decreases |dl| - i
  {
    if i == |dl| then 0 else (if IsTerm(dl[i]) then 1 else 0) + TermCount(dl, i + 1)
  }

  // ---------------------------------------------------------------------
  // Lemmas
  // ---------------------------------------------------------------------

  lemma NamesStep(dl: seq<Element>, i: nat)
    requires i < |dl|
    ensures Names(dl, i) == (if IsTerm(dl[i]) then {dl[i].text} else {}) + Names(dl, i + 1)
  {
  }

  /** What the loop from index `i`, started with `acc`, has built in `r`. */
  predicate PairedFrom(dl: seq<Element>, i: nat, acc: PropMap, r: PropMap)
    requires i <= |dl|
  {
    && r.Keys == acc.Keys + Names(dl, i)
    && (forall j :: i <= j < |dl| - 1 && IsLastTerm(dl, j) ==> r[dl[j].text] == dl[j + 1].text)
    && (forall n :: n in acc && n !in Names(dl, i) ==> r[n] == acc[n])
  }

  /** The step of the loop at a term: entering the term's pair and then
      running on from `i + 1` builds what running from `i` should. */
  lemma TermStep(dl: seq<Element>, i: nat, acc: PropMap, r: PropMap)
    requires i + 1 < |dl| && IsTerm(dl[i])
    requires PairedFrom(dl, i + 1, acc[dl[i].text := dl[i + 1].text], r)
    ensures PairedFrom(dl, i, acc, r)
  {
    NamesStep(dl, i);
    if IsLastTerm(dl, i) {
      assert dl[i].text !in Names(dl, i + 1);
    }
  }

  /** Every name has a last term, so the characterisation of the values in
      `ExtractAttrs` covers every key. */
  lemma {:induction false} NameHasLastTerm(dl: seq<Element>, i: nat, n: Option<string>)
    requires i <= |dl| && n in Names(dl, i)
    ensures exists j :: i <= j < |dl| && IsLastTerm(dl, j) && dl[j].text == n
    decreases |dl| - i
  {
    NamesStep(dl, i);
    if n in Names(dl, i + 1) {
      NameHasLastTerm(dl, i + 1, n);
    } else {
      assert IsTerm(dl[i]) && dl[i].text == n;
      assert IsLastTerm(dl, i);
    }
  }

  /** There are never more names than terms. */
  lemma {:induction false} NamesAtMostTerms(dl: seq<Element>, i: nat)
    requires i <= |dl|
    ensures |Names(dl, i)| <= TermCount(dl, i)
    decreases |dl| - i
  {
    if i == |dl| {
      assert Names(dl, i) == {};
    } else {
      NamesStep(dl, i);
      NamesAtMostTerms(dl, i + 1);
    }
  }

  /** The number of properties is at most the number of terms. */
  lemma AttrCount(doc: Document)
    requires ExtractAttrs(doc).Success?
    ensures |ExtractAttrs(doc).value| <= TermCount(Definitions(Flatten(doc.dataLists)), 0)
  {
    NamesAtMostTerms(Definitions(Flatten(doc.dataLists)), 0);
  }

  /** The descendants are read list by list: those of earlier lists come
      first, in their own order. */
  lemma {:induction false} FlattenConcat(a: seq<seq<Element>>, b: seq<seq<Element>>)
    ensures Flatten(a + b) == Flatten(a) + Flatten(b)
    decreases |a|
  {
    if |a| == 0 {
      assert a + b == b;
    } else {
      assert (a + b)[1..] == a[1..] + b;
      FlattenConcat(a[1..], b);
      ConcatAssoc(a[0], Flatten(a[1..]), Flatten(b));
    }
  }

  lemma FlattenSingle(l: seq<Element>)
    ensures Flatten([l]) == l
  {
    assert [l][1..] == [];
    assert Flatten([l]) == l + Flatten([]);
  }

  /** The filter keeps order across a split of its input. */
  lemma {:induction false} DefinitionsConcat(a: seq<Element>, b: seq<Element>)
    ensures Definitions(a + b) == Definitions(a) + Definitions(b)
    decreases |a|
  {
    if |a| == 0 {
      assert a + b == b;
    } else {
      assert (a + b)[1..] == a[1..] + b;
      DefinitionsConcat(a[1..], b);
    }
  }

  /** The filter keeps exactly the `dt` and `dd` elements: an element is in
      its result if and only if it is one of them and occurs in the input. */
  lemma {:induction false} DefinitionsMembers(es: seq<Element>, e: Element)
    ensures e in Definitions(es) <==> e in es && IsTermOrDefinition(e)
    decreases |es|
  {
    if |es| > 0 {
      DefinitionsMembers(es[1..], e);
      assert es == [es[0]] + es[1..];
    }
  }

  /** Only `dt` and `dd` elements matter: an element of any other tag, put
      anywhere among the descendants, changes nothing. */
  lemma OtherTagsIgnored(a: seq<Element>, e: Element, b: seq<Element>)
    requires !IsTermOrDefinition(e)
    ensures Definitions(a + [e] + b) == Definitions(a + b)
  {
    DefinitionsConcat(a + [e], b);
    DefinitionsConcat(a, [e]);
    DefinitionsConcat(a, b);
    assert Definitions([e]) == [];
  }

  /** A term followed directly by another term takes that term's text, and
      a repeated name keeps the value of its last occurrence; elements of
      other tags inside the list are skipped. */
  lemma PairingExample()
    ensures
      var a := Element("dt", None, None, Some("a"));
      var b := Element("dt", None, None, Some("b"));
      var c := Element("dt", None, None, Some("c"));
      var x := Element("dd", None, None, Some("x"));
      var y := Element("dd", None, None, Some("y"));
      var z := Element("dd", None, None, Some("z"));
      var span := Element("span", None, None, Some("note"));
      ExtractAttrs(Document([], [[a, b, x], [span, c, y, c, z]]))
        == Success(map[Some("a") := Some("b"), Some("b") := Some("x"), Some("c") := Some("z")])
  {
    var a := Element("dt", None, None, Some("a"));
    var b := Element("dt", None, None, Some("b"));
    var c := Element("dt", None, None, Some("c"));
    var x := Element("dd", None, None, Some("x"));
    var y := Element("dd", None, None, Some("y"));
    var z := Element("dd", None, None, Some("z"));
    var span := Element("span", None, None, Some("note"));
    ExampleDefinitions(a, b, c, x, y, z, span);
    ExamplePairs(a, b, c, x, y, z);
  }

  lemma ExampleDefinitions(a: Element, b: Element, c: Element, x: Element, y: Element, z: Element, span: Element)
    requires IsTermOrDefinition(a) && IsTermOrDefinition(b) && IsTermOrDefinition(c)
    requires IsTermOrDefinition(x) && IsTermOrDefinition(y) && IsTermOrDefinition(z)
    requires !IsTermOrDefinition(span)
    ensures Definitions(Flatten([[a, b, x], [span, c, y, c, z]])) == [a, b, x, c, y, c, z]
  {
    var l1, l2 := [a, b, x], [c, y, c, z];
    assert [span, c, y, c, z] == [span] + l2;
    DefinitionsSkipOne(l1, span, l2);
    assert l1 + l2 == [a, b, x, c, y, c, z];
  }

  /** Two lists of terms and definitions, the second led by another tag,
      leave the filter as the two lists one after the other. */
  lemma DefinitionsSkipOne(l1: seq<Element>, other: Element, l2: seq<Element>)
    requires forall i :: 0 <= i < |l1| ==> IsTermOrDefinition(l1[i])
    requires forall i :: 0 <= i < |l2| ==> IsTermOrDefinition(l2[i])
    requires !IsTermOrDefinition(other)
    ensures Definitions(Flatten([l1, [other] + l2])) == l1 + l2
  {
    var rest := [other] + l2;
    assert Flatten([l1, rest]) == l1 + rest by { ExampleFlatten(l1, rest); }
    assert Definitions(rest) == l2 by {
      DefinitionsCons(other, l2);
      DefinitionsKeepAll(l2);
    }
    assert Definitions(l1 + rest) == l1 + Definitions(rest) by {
      DefinitionsConcat(l1, rest);
      DefinitionsKeepAll(l1);
    }
  }

  /** A list of `dt` and `dd` elements only passes the filter unchanged. */
  lemma {:induction false} DefinitionsKeepAll(es: seq<Element>)
    requires forall i :: 0 <= i < |es| ==> IsTermOrDefinition(es[i])
    ensures Definitions(es) == es
    decreases |es|
  {
    if |es| > 0 {
      DefinitionsKeepAll(es[1..]);
    }
  }

  lemma ExampleFlatten(l1: seq<Element>, l2: seq<Element>)
    ensures Flatten([l1, l2]) == l1 + l2
  {
    FlattenConcat([l1], [l2]);
    assert [l1] + [l2] == [l1, l2];
    FlattenSingle(l1);
    FlattenSingle(l2);
  }

  /** The filter looks at the head and then at the rest. */
  lemma DefinitionsCons(e: Element, rest: seq<Element>)
    ensures Definitions([e] + rest) == (if IsTermOrDefinition(e) then [e] else []) + Definitions(rest)
  {
    assert ([e] + rest)[1..] == rest;
  }

  lemma ExamplePairs(a: Element, b: Element, c: Element, x: Element, y: Element, z: Element)
    requires a == Element("dt", None, None, Some("a")) && b == Element("dt", None, None, Some("b"))
    requires c == Element("dt", None, None, Some("c"))
    requires x == Element("dd", None, None, Some("x")) && y == Element("dd", None, None, Some("y"))
    requires z == Element("dd", None, None, Some("z"))
    ensures Pair([a, b, x, c, y, c, z], 0, map[])
      == Success(map[Some("a") := Some("b"), Some("b") := Some("x"), Some("c") := Some("z")])
  {
    var dl := [a, b, x, c, y, c, z];
    assert dl[0] == a && dl[1] == b && dl[2] == x && dl[3] == c && dl[4] == y && dl[5] == c && dl[6] == z;
    var r := Pair(dl, 0, map[]);
    assert !Dangling(dl);
    assert Names(dl, 0) == {Some("a"), Some("b"), Some("c")} by {
      assert dl[0].text == Some("a") && dl[1].text == Some("b") && dl[3].text == Some("c");
    }
    assert IsLastTerm(dl, 0) && IsLastTerm(dl, 1) && IsLastTerm(dl, 5);
    assert r.value[Some("a")] == Some("b");
    assert r.value[Some("b")] == Some("x");
    assert r.value[Some("c")] == Some("z");
    assert r.value.Keys == {Some("a"), Some("b"), Some("c")};
    assert r.value == map[Some("a") := Some("b"), Some("b") := Some("x"), Some("c") := Some("z")];
  }

  /** A list ending with a term makes the extraction raise. */
  lemma DanglingExample()
    ensures
      var a := Element("dt", None, None, Some("a"));
      var x := Element("dd", None, None, Some("x"));
      ExtractAttrs(Document([], [[a, x, a]])) == Failure(DanglingTerm)
  {
  }
}
