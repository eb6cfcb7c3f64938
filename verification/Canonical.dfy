/** Canonical URI generation: `canonicalise`. */
module Canonical {
  import opened Text
  import opened Sorting
  import opened AiTable
  import opened Dict
  import opened Percent
  import opened Scanner
  import opened Url
  import opened Gtin
  import opened Parser

  // ----- The printer -------------------------------------------------------

  /** The primary value as it is printed: a GTIN is padded to GTIN-14. */
  function PaddedPrimary(r: ParseResult): string {
    if r.primaryAi == "01" then PadGtin(r.primaryValue) else r.primaryValue
  }

  /** `[k for k in ks if k in d]`. */
  function Present(ks: seq<string>, d: Dict<string>): seq<string> {
    if ks == [] then []
    else (if Has(d, ks[0]) then [ks[0]] else []) + Present(ks[1..], d)
  }

  /** `[k for k in ks if k not in seen]`. */
  function Unseen(ks: seq<string>, seen: seq<string>): seq<string> {
    if ks == [] then []
    else (if ks[0] !in seen then [ks[0]] else []) + Unseen(ks[1..], seen)
  }

  /** The qualifiers in the order they are printed: first the ordered pass, then the leftover pass. */
  function QualifierKeys(r: ParseResult): seq<string> {
    var ordered := Present(QualifierOrder(r.primaryAi), r.qualifiers);
    ordered + Unseen(SortStrings(Keys(r.qualifiers)), ordered)
  }

  function AttributeKeys(r: ParseResult): seq<string> {
    SortStrings(Keys(r.attributes))
  }

  /** The segments of the canonical path, before quoting. */
  function CanonicalSegments(r: ParseResult): seq<Segment> {
    [(r.primaryAi, PaddedPrimary(r))]
    + Entries(r.qualifiers, QualifierKeys(r))
    + Entries(r.attributes, AttributeKeys(r))
  }

  function QuoteSegments(segs: seq<Segment>): (q: seq<Segment>)
    ensures |q| == |segs|
    ensures forall i :: 0 <= i < |segs| ==> q[i] == (segs[i].0, Quote(segs[i].1))
  {
    if segs == [] then [] else [(segs[0].0, Quote(segs[0].1))] + QuoteSegments(segs[1..])
  }

  function CanonicalPath(r: ParseResult): string {
    Render(QuoteSegments(CanonicalSegments(r)))
  }

  /** `canonicalise(r, host)`; `None` is the `ValueError` of a result without a primary key. */
  function Canonicalise(r: ParseResult, host: string): Option<string> {
    if r.primaryAi == "" then None else Some(Origin(Some(host)) + CanonicalPath(r))
  }

  lemma {:induction false} RenderAppend(a: seq<Segment>, b: seq<Segment>)
    ensures Render(a + b) == Render(a) + Render(b)
  {
    if a == [] {
      assert a + b == b;
      assert "" + Render(b) == Render(b);
    } else {
      assert (a + b)[1..] == a[1..] + b;
      RenderAppend(a[1..], b);
      Concat3(Written(a[0]), Render(a[1..]), Render(b));
    }
  }

  lemma {:induction false} QuoteAppend(a: seq<Segment>, b: seq<Segment>)
    ensures QuoteSegments(a + b) == QuoteSegments(a) + QuoteSegments(b)
  {
    hide QuoteSegments, Quote;
  }

  /** One more key printed: the path grows by its segment. */
  lemma PrintOne(done: string, d: Dict<string>, ks: seq<string>, k: string)
    ensures done + Render(QuoteSegments(Entries(d, ks + [k])))
         == done + Render(QuoteSegments(Entries(d, ks))) + ("/" + k + "/" + Quote(GetOr(d, k, "")))
  {
    hide Quote, GetOr;
    var one := [(k, GetOr(d, k, ""))];
    assert Entries(d, ks + [k]) == Entries(d, ks) + one;
    QuoteAppend(Entries(d, ks), one);
    assert QuoteSegments(one) == [(k, Quote(GetOr(d, k, "")))];
    RenderAppend(QuoteSegments(Entries(d, ks)), QuoteSegments(one));
    var w := Written(QuoteSegments(one)[0]);
    assert QuoteSegments(one)[1..] == [];
    assert Render(QuoteSegments(one)) == w + "" == w;
    Concat3(done, Render(QuoteSegments(Entries(d, ks))), w);
  }

  lemma {:induction false} NothingPrinted(done: string, d: Dict<string>)
    ensures done + Render(QuoteSegments(Entries(d, []))) == done
    ensures Present([], d) == []
  {
  }

  lemma {:induction false} NothingUnseen(seen: seq<string>)
    ensures Unseen([], seen) == [] && seen + [] == seen
  {
  }

  lemma {:induction false} PresentStep(ks: seq<string>, i: nat, d: Dict<string>)
    requires i < |ks|
    ensures Present(ks[..i + 1], d) == Present(ks[..i], d) + (if Has(d, ks[i]) then [ks[i]] else [])
  {
    PresentAppend(ks[..i], [ks[i]], d);
    assert ks[..i + 1] == ks[..i] + [ks[i]];
    assert [ks[i]][1..] == [];
  }

  lemma {:induction false} PresentAppend(a: seq<string>, b: seq<string>, d: Dict<string>)
    ensures Present(a + b, d) == Present(a, d) + Present(b, d)
  {
    if a == [] {
      assert a + b == b;
    } else {
      assert (a + b)[1..] == a[1..] + b;
      PresentAppend(a[1..], b, d);
    }
  }

  lemma {:induction false} UnseenStep(ks: seq<string>, i: nat, seen: seq<string>)
    requires i < |ks|
    ensures Unseen(ks[..i + 1], seen) == Unseen(ks[..i], seen) + (if ks[i] !in seen then [ks[i]] else [])
  {
    UnseenAppend(ks[..i], [ks[i]], seen);
    assert ks[..i + 1] == ks[..i] + [ks[i]];
    assert [ks[i]][1..] == [];
  }

  lemma {:induction false} UnseenAppend(a: seq<string>, b: seq<string>, seen: seq<string>)
    ensures Unseen(a + b, seen) == Unseen(a, seen) + Unseen(b, seen)
  {
    if a == [] {
      assert a + b == b;
    } else {
      assert (a + b)[1..] == a[1..] + b;
      UnseenAppend(a[1..], b, seen);
    }
  }

  method Print(r: ParseResult, host: string) returns (uri: Option<string>)
    ensures uri == Canonicalise(r, host)
    ensures uri == None <==> r.primaryAi == ""
  {
    hide Quote, Render, QuoteSegments, Entries, Present, Unseen, QualifierOrder, SortStrings, PadGtin, Has, Keys, GetOr;
    if r.primaryAi == "" {
      return None;
    }
    var primaryValue := r.primaryValue;
    if r.primaryAi == "01" {
      primaryValue := PadGtin(primaryValue);
    }
    var path := "/" + r.primaryAi + "/" + Quote(primaryValue);
    ghost var head := path;
    NothingPrinted(head, r.qualifiers);
    var order := QualifierOrder(r.primaryAi);
    var seen: seq<string> := [];
    for i := 0 to |order|
      invariant seen == Present(order[..i], r.qualifiers)
      invariant path == head + Render(QuoteSegments(Entries(r.qualifiers, seen)))
    {
      PresentStep(order, i, r.qualifiers);
      if Has(r.qualifiers, order[i]) {
        PrintOne(head, r.qualifiers, seen, order[i]);
        path := path + ("/" + order[i] + "/" + Quote(GetOr(r.qualifiers, order[i], "")));
        seen := seen + [order[i]];
      }
    }
    assert order[..|order|] == order;
    var rest := SortStrings(Keys(r.qualifiers));
    ghost var printed := seen;
    NothingUnseen(seen);
    for i := 0 to |rest|
      invariant printed == seen + Unseen(rest[..i], seen)
      invariant path == head + Render(QuoteSegments(Entries(r.qualifiers, printed)))
    {
      UnseenStep(rest, i, seen);
      if rest[i] !in seen {
        PrintOne(head, r.qualifiers, printed, rest[i]);
        path := path + ("/" + rest[i] + "/" + Quote(GetOr(r.qualifiers, rest[i], "")));
        printed := printed + [rest[i]];
      }
    }
    assert rest[..|rest|] == rest;
    ghost var middle := path;
    NothingPrinted(middle, r.attributes);
    var attributes := SortStrings(Keys(r.attributes));
    for i := 0 to |attributes|
      invariant path == middle + Render(QuoteSegments(Entries(r.attributes, attributes[..i])))
    {
      assert attributes[..i + 1] == attributes[..i] + [attributes[i]];
      PrintOne(middle, r.attributes, attributes[..i], attributes[i]);
      path := path + ("/" + attributes[i] + "/" + Quote(GetOr(r.attributes, attributes[i], "")));
    }
    assert attributes[..|attributes|] == attributes;
    PathInThree(r);
    uri := Some("https://" + host + path);
    Concat3("https://", host, path);
  }

  lemma PathInThree(r: ParseResult)
    ensures CanonicalPath(r) ==
      "/" + r.primaryAi + "/" + Quote(PaddedPrimary(r))
      + Render(QuoteSegments(Entries(r.qualifiers, QualifierKeys(r))))
      + Render(QuoteSegments(Entries(r.attributes, AttributeKeys(r))))
  {
    hide QualifierKeys, AttributeKeys, PaddedPrimary, Quote;
    var first := [(r.primaryAi, PaddedPrimary(r))];
    var qs, ats := Entries(r.qualifiers, QualifierKeys(r)), Entries(r.attributes, AttributeKeys(r));
    QuoteAppend(first + qs, ats);
    QuoteAppend(first, qs);
    assert QuoteSegments(first) == [(r.primaryAi, Quote(PaddedPrimary(r)))];
    RenderAppend(QuoteSegments(first) + QuoteSegments(qs), QuoteSegments(ats));
    RenderAppend(QuoteSegments(first), QuoteSegments(qs));
    assert QuoteSegments(first)[1..] == [];
    var w := Written(QuoteSegments(first)[0]);
    assert Render(QuoteSegments(first)) == w + "" == w;
  }
}
