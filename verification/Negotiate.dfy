/** Content negotiation: the media type chosen for an Accept header. */
module Negotiate {
  import opened Text
  import opened Sorting
  import opened Url

  const LINKSET_JSON := "application/linkset+json"
  const LD_JSON := "application/ld+json"
  const JSON := "application/json"
  const HTML := "text/html"

  const OFFERS: seq<string> := [LINKSET_JSON, LD_JSON, JSON, HTML]

  const DEFAULT := LINKSET_JSON

  /** A media range and its quality. */
  type Range = (string, real)

  /** `float(text)`, left to the caller; `None` is its `ValueError`. */
  type Number = string -> Option<real>

  // ----- Reading the header ------------------------------------------------

  function StripAll(texts: seq<string>): (r: seq<string>)
    ensures |r| == |texts|
    ensures forall i :: 0 <= i < |texts| ==> r[i] == Strip(texts[i])
  {
    if texts == [] then [] else [Strip(texts[0])] + StripAll(texts[1..])
  }

  /**
   * The quality the parameters give: the last `q=` counts, one that is no number counts as zero, none at all as one.
   */
  function Quality(params: seq<string>, number: Number): real {
    if params == [] then 1.0
    else
      var last := params[|params| - 1];
      if StartsWith(last, "q=") then number(last[2..]).GetOr(0.0) else Quality(params[..|params| - 1], number)
  }

  /** One stripped entry of the header. */
  function ReadRange(text: string, number: Number): Range {
    if ';' in text then
      var parts := StripAll(Split(text, ';'));
      (parts[0], Quality(parts[1..], number))
    else (text, 1.0)
  }

  function ReadRanges(texts: seq<string>, number: Number): seq<Range> {
    if texts == [] then []
    else (if Strip(texts[0]) == "" then [] else [ReadRange(Strip(texts[0]), number)]) + ReadRanges(texts[1..], number)
  }

  predicate Before(a: Range, b: Range) {
    a.1 >= b.1
  }

  /** The ranges of the header, in the order they are written. */
  function Ranges(accept: string, number: Number): seq<Range> {
    ReadRanges(Split(accept, ','), number)
  }

  /** `_parse_accept(accept)`. */
  function ParseAccept(accept: string, number: Number): seq<Range> {
    if accept == "" then [] else StableSort(Before, Ranges(accept, number))
  }

  lemma ReadRangesNext(texts: seq<string>, i: nat, number: Number)
    requires i < |texts|
    ensures ReadRanges(texts[..i + 1], number) ==
      ReadRanges(texts[..i], number) + (if Strip(texts[i]) == "" then [] else [ReadRange(Strip(texts[i]), number)])
  {
    hide Strip, ReadRange;
    assert texts[..i + 1] == texts[..i] + [texts[i]];
    ReadRangesAppend(texts[..i], [texts[i]], number);
    assert [texts[i]][1..] == [];
  }

  lemma {:induction false} ReadRangesAppend(a: seq<string>, b: seq<string>, number: Number)
    ensures ReadRanges(a + b, number) == ReadRanges(a, number) + ReadRanges(b, number)
  {
    hide Strip, ReadRange;
    if a == [] {
      assert a + b == b;
    } else {
      assert (a + b)[1..] == a[1..] + b;
      ReadRangesAppend(a[1..], b, number);
      var head := if Strip(a[0]) == "" then [] else [ReadRange(Strip(a[0]), number)];
      Concat3(head, ReadRanges(a[1..], number), ReadRanges(b, number));
    }
  }

  method ReadAccept(accept: string, number: Number) returns (parts: seq<Range>)
    ensures parts == ParseAccept(accept, number)
  {
    hide Strip, StableSort;
    if accept == "" {
      return [];
    }
    parts := [];
    var entries := Split(accept, ',');
    for i := 0 to |entries|
      invariant parts == ReadRanges(entries[..i], number)
    {
      ReadRangesNext(entries, i, number);
      var entry := Strip(entries[i]);
      if entry == "" {
        continue;
      }
      if ';' in entry {
        var pieces := StripAll(Split(entry, ';'));
        var params := pieces[1..];
        var q := 1.0;
        for j := 0 to |params|
          invariant q == Quality(params[..j], number)
        {
          assert params[..j + 1][..j] == params[..j];
          if StartsWith(params[j], "q=") {
            q := number(params[j][2..]).GetOr(0.0);
          }
        }
        assert params[..|params|] == params;
        parts := parts + [(pieces[0], q)];
      } else {
        parts := parts + [(entry, 1.0)];
      }
    }
    assert entries[..|entries|] == entries;
    parts := StableSort(Before, parts);
  }

  // ----- Choosing an offer -------------------------------------------------

  /** `_matches(offer, pattern)`. */
  predicate Matches(offer: string, pattern: string) {
    if pattern == "*/*" then true
    else if EndsWith(pattern, "/*") then CutAt(offer, '/').0 == CutAt(pattern, '/').0
    else offer == pattern
  }

  /** The first offer that matches. */
  function FirstOffer(offers: seq<string>, pattern: string): Option<string> {
    if offers == [] then None
    else if Matches(offers[0], pattern) then Some(offers[0])
    else FirstOffer(offers[1..], pattern)
  }

  /** A range that can decide: it has a positive quality, and an offer matches it. */
  predicate Eligible(range: Range) {
    range.1 > 0.0 && FirstOffer(OFFERS, range.0).Some?
  }

  /** The walk over the sorted ranges: the first that can decide. */
  function FirstEligible(ranges: seq<Range>): Option<Range> {
    if ranges == [] then None
    else if Eligible(ranges[0]) then Some(ranges[0])
    else FirstEligible(ranges[1..])
  }

  function OfferOf(decider: Option<Range>): string {
    match decider case Some(range) => FirstOffer(OFFERS, range.0).GetOr(DEFAULT) case None => DEFAULT
  }

  /** `select_media_type(accept)`. */
  function SelectMediaType(accept: string, number: Number): string {
    OfferOf(FirstEligible(ParseAccept(accept, number)))
  }

  method Select(accept: string, number: Number) returns (chosen: string)
    ensures chosen == SelectMediaType(accept, number)
  {
    hide ParseAccept, Matches;
    var parsed := ReadAccept(accept, number);
    if parsed == [] {
      return DEFAULT;
    }
    for i := 0 to |parsed|
      invariant FirstEligible(parsed[i..]) == FirstEligible(parsed)
    {
      assert parsed[i..][1..] == parsed[i + 1..];
      var (pattern, q) := parsed[i];
      if q <= 0.0 {
        continue;
      }
      for j := 0 to |OFFERS|
        invariant FirstOffer(OFFERS[j..], pattern) == FirstOffer(OFFERS, pattern)
      {
        assert OFFERS[j..][1..] == OFFERS[j + 1..];
        if Matches(OFFERS[j], pattern) {
          return OFFERS[j];
        }
      }
    }
    return DEFAULT;
  }

  // ----- The best entry ----------------------------------------------------

  /** Entry `i` is the best: it can decide, none that can has a higher quality, and none before it has the same. */
  ghost predicate Best(ranges: seq<Range>, i: nat) {
    && i < |ranges| && Eligible(ranges[i])
    && forall j :: 0 <= j < |ranges| && Eligible(ranges[j]) ==>
         ranges[j].1 <= ranges[i].1 && (j < i ==> ranges[j].1 < ranges[i].1)
  }

  /** One more range in front: it wins over a later one of the same quality. */
  function Better(range: Range, rest: Option<Range>): Option<Range> {
    if Eligible(range) && (rest.None? || range.1 >= rest.value.1) then Some(range) else rest
  }

  function BestOf(ranges: seq<Range>): Option<Range> {
    if ranges == [] then None else Better(ranges[0], BestOf(ranges[1..]))
  }

  lemma {:induction false} FirstOfSorted(range: Range, ranges: seq<Range>)
    requires SortedBy(Before, ranges)
    ensures FirstEligible(Insert(Before, range, ranges)) == Better(range, FirstEligible(ranges))
  {
    hide Eligible;
    if ranges == [] || Before(range, ranges[0]) {
      assert ([range] + ranges)[1..] == ranges;
      FirstIsThere(ranges);
    } else {
      var rest := Insert(Before, range, ranges[1..]);
      assert ([ranges[0]] + rest)[1..] == rest;
      FirstOfSorted(range, ranges[1..]);
    }
  }

  lemma {:induction false} FirstIsThere(ranges: seq<Range>)
    ensures FirstEligible(ranges).Some?
      ==> FirstEligible(ranges).value in ranges && Eligible(FirstEligible(ranges).value)
    ensures FirstEligible(ranges).None? ==> forall i :: 0 <= i < |ranges| ==> !Eligible(ranges[i])
  {
    hide Eligible;
    if ranges == [] {
    } else {
      FirstIsThere(ranges[1..]);
      assert ranges == [ranges[0]] + ranges[1..];
    }
  }

  lemma BeforeIsTotalPreorder()
    ensures TotalPreorder(Before)
  {
  }

  /** Sorting and walking finds the best entry. */
  lemma {:induction false} SortThenWalk(ranges: seq<Range>)
    ensures FirstEligible(StableSort(Before, ranges)) == BestOf(ranges)
  {
    hide Eligible;
    if ranges == [] {
    } else {
      SortThenWalk(ranges[1..]);
      BeforeIsTotalPreorder();
      SortSorts(Before, ranges[1..]);
      FirstOfSorted(ranges[0], StableSort(Before, ranges[1..]));
    }
  }

  lemma {:induction false} BestOfIsBest(ranges: seq<Range>)
    ensures match BestOf(ranges)
      case Some(range) => exists i: nat :: Best(ranges, i) && ranges[i] == range
      case None => forall i :: 0 <= i < |ranges| ==> !Eligible(ranges[i])
  {
    hide Eligible;
    if ranges == [] {
    } else {
      BestOfIsBest(ranges[1..]);
      var rest := BestOf(ranges[1..]);
      assert forall j :: 1 <= j < |ranges| ==> ranges[j] == ranges[1..][j - 1];
      if rest.Some? {
        var i: nat :| Best(ranges[1..], i) && ranges[1..][i] == rest.value;
        if BestOf(ranges) == rest && !(Eligible(ranges[0]) && ranges[0].1 >= rest.value.1) {
          assert Best(ranges, i + 1);
        } else {
          assert Best(ranges, 0);
        }
      } else if Eligible(ranges[0]) {
        assert Best(ranges, 0);
      }
    }
  }

  lemma BestIsUnique(ranges: seq<Range>, i: nat, j: nat)
    requires Best(ranges, i) && Best(ranges, j)
    ensures i == j
  {
    hide Eligible;
  }

  lemma RangesSorted(accept: string, number: Number)
    ensures ParseAccept(accept, number) == StableSort(Before, Ranges(accept, number))
  {
    if accept == "" {
      assert Split("", ',') == [""];
      assert Strip("") == "";
      assert ReadRanges([""], number) == [] + ReadRanges([""][1..], number);
    }
  }

  /**
   * Negotiation is an argmax: for every header the answer is the first offer matching the earliest entry among
   * those with the highest quality that have a positive quality and match some offer, or the default when there
   * is no such entry.
   */
  lemma SelectIsBest(accept: string, number: Number)
    ensures var ranges := Ranges(accept, number);
      && (forall i: nat :: Best(ranges, i) ==> Some(SelectMediaType(accept, number)) == FirstOffer(OFFERS, ranges[i].0))
      && ((exists i: nat :: Best(ranges, i))
          || (SelectMediaType(accept, number) == DEFAULT && forall j :: 0 <= j < |ranges| ==> !Eligible(ranges[j])))
  {
    hide Ranges, ParseAccept, StableSort, FirstOffer;
    var ranges := Ranges(accept, number);
    RangesSorted(accept, number);
    SortThenWalk(ranges);
    BestOfIsBest(ranges);
    forall i: nat | Best(ranges, i) ensures Some(SelectMediaType(accept, number)) == FirstOffer(OFFERS, ranges[i].0) {
      assert Eligible(ranges[i]);
      var j: nat :| Best(ranges, j) && ranges[j] == BestOf(ranges).value;
      BestIsUnique(ranges, i, j);
    }
  }

  lemma {:induction false} BestWithout(a: seq<Range>, range: Range, b: seq<Range>)
    requires !Eligible(range)
    ensures BestOf(a + [range] + b) == BestOf(a + b)
  {
    hide Eligible;
    var all := a + [range] + b;
    if a == [] {
      assert all[1..] == b && a + b == b;
    } else {
      assert all[1..] == a[1..] + [range] + b && (a + b)[1..] == a[1..] + b;
      BestWithout(a[1..], range, b);
    }
  }

  lemma SelectByBest(accept: string, number: Number)
    ensures SelectMediaType(accept, number) == OfferOf(BestOf(Ranges(accept, number)))
  {
    hide Ranges, ParseAccept, StableSort, FirstOffer, OfferOf;
    RangesSorted(accept, number);
    SortThenWalk(Ranges(accept, number));
  }

  /**
   * An entry that matches no offer, or has no positive quality, or is blank, changes nothing wherever in the
   * header it is written.
   */
  lemma {:induction false} InertEntry(before: seq<string>, text: string, after: seq<string>, number: Number)
    requires forall i :: 0 <= i < |before + [text] + after| ==> ',' !in (before + [text] + after)[i]
    requires Strip(text) == "" || !Eligible(ReadRange(Strip(text), number))
    ensures SelectMediaType(Join(before + [text] + after, ","), number)
      == SelectMediaType(Join(before + after, ","), number)
  {
    hide Eligible, Strip, ReadRange, SelectMediaType, OfferOf, Join, Split;
    var all := before + [text] + after;
    forall i | 0 <= i < |before + after| ensures ',' !in (before + after)[i] {
      assert (before + after)[i] == all[if i < |before| then i else i + 1];
    }
    SplitJoin(all, ',');
    JoinedRanges(before + after, number);
    SelectByBest(Join(all, ","), number);
    SelectByBest(Join(before + after, ","), number);
    ReadRangesAppend(before + [text], after, number);
    ReadRangesAppend(before, [text], number);
    ReadRangesAppend(before, after, number);
    ReadOne(text, number);
    var a, b := ReadRanges(before, number), ReadRanges(after, number);
    if Strip(text) == "" {
      assert a + [] == a;
    } else {
      BestWithout(a, ReadRange(Strip(text), number), b);
    }
  }

  /** The ranges of a header made of entries; one of no entries is empty, and has none. */
  lemma {:induction false} JoinedRanges(texts: seq<string>, number: Number)
    requires forall i :: 0 <= i < |texts| ==> ',' !in texts[i]
    ensures Ranges(Join(texts, ","), number) == ReadRanges(texts, number)
  {
    hide ReadRange, Strip;
    if texts == [] {
      assert Split("", ',') == [""];
      assert Strip("") == "" by { EmptyStrip(); }
      ReadOne("", number);
    } else {
      hide Split, Join;
      SplitJoin(texts, ',');
    }
  }

  lemma EmptyStrip()
    ensures Strip("") == ""
  {
  }

  lemma ReadOne(text: string, number: Number)
    ensures ReadRanges([text], number) == if Strip(text) == "" then [] else [ReadRange(Strip(text), number)]
  {
    hide Strip, ReadRange;
    assert [text][1..] == [];
  }

  // ----- What is read from a header ----------------------------------------

  /** Without a parameter that begins with `q=` the quality is one. */
  lemma {:induction false} NoQuality(params: seq<string>, number: Number)
    requires forall i :: 0 <= i < |params| ==> !("q=" <= params[i])
    ensures Quality(params, number) == 1.0
  {
    if params == [] {
    } else {
      NoQuality(params[..|params| - 1], number);
    }
  }

  /** The last such parameter says the quality; one that is no number says zero. */
  lemma {:induction false} LastQuality(params: seq<string>, i: nat, number: Number)
    requires i < |params| && "q=" <= params[i] && forall j :: i < j < |params| ==> !("q=" <= params[j])
    ensures Quality(params, number) == match number(params[i][2..]) case Some(q) => q case None => 0.0
  {
    if i < |params| - 1 {
      LastQuality(params[..|params| - 1], i, number);
    }
  }

  /** An entry is cut at its semicolons: its type, stripped, and the quality of its parameters, stripped. */
  lemma {:induction false} RangeMeaning(mediaType: string, params: seq<string>, number: Number)
    requires ';' !in mediaType && forall i :: 0 <= i < |params| ==> ';' !in params[i]
    ensures params == [] ==> ReadRange(Join([mediaType] + params, ";"), number) == (mediaType, 1.0)
    ensures params != [] ==>
      ReadRange(Join([mediaType] + params, ";"), number) == (Strip(mediaType), Quality(StripAll(params), number))
  {
    hide Split, Strip, Quality;
    var pieces := [mediaType] + params;
    if params == [] {
      assert pieces == [mediaType];
    } else {
      SplitJoin(pieces, ';');
      assert pieces[1..] == params;
      assert Join(pieces, ";")[|mediaType|] == ';';
      var stripped := StripAll(pieces);
      assert stripped[1..] == StripAll(params);
    }
  }

  /** Entries are read in order, each stripped. */
  lemma {:induction false} EntriesRead(texts: seq<string>, number: Number)
    requires forall i :: 0 <= i < |texts| ==> Strip(texts[i]) != ""
    ensures |ReadRanges(texts, number)| == |texts|
    ensures forall i :: 0 <= i < |texts| ==> ReadRanges(texts, number)[i] == ReadRange(Strip(texts[i]), number)
  {
    hide Strip, ReadRange;
    if texts == [] {
    } else {
      EntriesRead(texts[1..], number);
    }
  }

  /** A header is cut at its commas, and its entries are read in order; blank ones are skipped. */
  lemma {:induction false} HeaderMeaning(texts: seq<string>, blank: string, more: seq<string>, number: Number)
    requires forall i :: 0 <= i < |texts + [blank] + more| ==> ',' !in (texts + [blank] + more)[i]
    requires Strip(blank) == "" && forall i :: 0 <= i < |texts| ==> Strip(texts[i]) != ""
    ensures var ranges := Ranges(Join(texts, ","), number);
      |ranges| == |texts| && forall i :: 0 <= i < |texts| ==> ranges[i] == ReadRange(Strip(texts[i]), number)
    ensures Ranges(Join(texts + [blank] + more, ","), number) == Ranges(Join(texts + more, ","), number)
  {
    hide Strip, ReadRange, Ranges, Join;
    var all := texts + [blank] + more;
    forall i | 0 <= i < |texts + more| ensures ',' !in (texts + more)[i] {
      assert (texts + more)[i] == all[if i < |texts| then i else i + 1];
    }
    forall i | 0 <= i < |texts| ensures ',' !in texts[i] {
      assert texts[i] == all[i];
    }
    JoinedRanges(texts, number);
    JoinedRanges(all, number);
    JoinedRanges(texts + more, number);
    EntriesRead(texts, number);
    ReadRangesAppend(texts + [blank], more, number);
    ReadRangesAppend(texts, [blank], number);
    ReadRangesAppend(texts, more, number);
    ReadOne(blank, number);
    assert ReadRanges(texts, number) + [] == ReadRanges(texts, number);
  }

  // ----- What quality zero does not do -------------------------------------

  lemma TypeOf(kind: string, rest: string)
    requires '/' !in kind
    ensures CutAt(kind + ("/" + rest), '/').0 == kind
  {
    CutHere(kind, "/" + rest, '/');
  }

  lemma ApplicationOffers()
    ensures CutAt(LINKSET_JSON, '/').0 == CutAt(LD_JSON, '/').0 == CutAt(JSON, '/').0 == "application"
  {
    hide CutAt;
    TypeOf("application", "linkset+json");
    TypeOf("application", "ld+json");
    TypeOf("application", "json");
    assert LINKSET_JSON == "application" + ("/" + "linkset+json");
    assert LD_JSON == "application" + ("/" + "ld+json");
    assert JSON == "application" + ("/" + "json");
  }

  lemma TextOffer()
    ensures CutAt(HTML, '/').0 == "text"
  {
    hide CutAt;
    TypeOf("text", "html");
    assert HTML == "text" + ("/" + "html");
  }

  lemma OfferEnds(offer: string)
    requires offer in OFFERS
    ensures !EndsWith(offer, "/*")
  {
    assert offer[|offer| - 1] == 'n' || offer[|offer| - 1] == 'l';
  }

  /** Which offer a range stands for: a wildcard for the first of its kind, anything else for itself. */
  lemma {:induction false} OfferFor(pattern: string)
    ensures FirstOffer(OFFERS, pattern) ==
      if pattern == "*/*" then Some(LINKSET_JSON)
      else if EndsWith(pattern, "/*") then
        (if CutAt(pattern, '/').0 == "application" then Some(LINKSET_JSON)
         else if CutAt(pattern, '/').0 == "text" then Some(HTML) else None)
      else if pattern in OFFERS then Some(pattern) else None
  {
    ApplicationOffers();
    TextOffer();
    hide CutAt, EndsWith, FirstOffer, LINKSET_JSON, LD_JSON, JSON, HTML;
    FourOffers(LINKSET_JSON, LD_JSON, JSON, HTML, pattern);
  }

  lemma {:induction false} FourOffers(a: string, b: string, c: string, d: string, pattern: string)
    ensures FirstOffer([a, b, c, d], pattern) ==
      if Matches(a, pattern) then Some(a) else if Matches(b, pattern) then Some(b)
      else if Matches(c, pattern) then Some(c) else if Matches(d, pattern) then Some(d) else None
  {
    hide Matches;
    assert [a, b, c, d][1..] == [b, c, d] && [b, c, d][1..] == [c, d] && [c, d][1..] == [d] && [d][1..] == [];
    assert FirstOffer([d], pattern) == if Matches(d, pattern) then Some(d) else None;
    assert FirstOffer([c, d], pattern) == if Matches(c, pattern) then Some(c) else FirstOffer([d], pattern);
    assert FirstOffer([b, c, d], pattern) == if Matches(b, pattern) then Some(b) else FirstOffer([c, d], pattern);
  }

  /** The header names this media type itself and gives it no positive quality. */
  ghost predicate Refuses(ranges: seq<Range>, offer: string) {
    exists i :: 0 <= i < |ranges| && ranges[i].0 == offer && ranges[i].1 <= 0.0
  }

  /** A range that stands for an offer: the offer by name, or a wildcard that it is the first offer of. */
  predicate StandsFor(pattern: string, offer: string) {
    if pattern == "*/*" then offer == LINKSET_JSON
    else if EndsWith(pattern, "/*") then
      || (CutAt(pattern, '/').0 == "application" && offer == LINKSET_JSON)
      || (CutAt(pattern, '/').0 == "text" && offer == HTML)
    else pattern == offer
  }

  /** An entry that asks for an offer. */
  predicate AsksFor(range: Range, offer: string) {
    range.1 > 0.0 && StandsFor(range.0, offer)
  }

  /** An entry that ranks above another: a higher quality, or the same and written before it. */
  predicate Outranks(ranges: seq<Range>, i: nat, j: nat)
    requires i < |ranges| && j < |ranges|
  {
    ranges[i].1 > ranges[j].1 || (ranges[i].1 == ranges[j].1 && i < j)
  }

  /** Some entry asks for the offer and outranks every entry that asks for another one. */
  ghost predicate Leads(ranges: seq<Range>, offer: string) {
    exists i: nat :: i < |ranges| && AsksFor(ranges[i], offer)
      && forall j: nat, other :: j < |ranges| && other in OFFERS && other != offer && AsksFor(ranges[j], other) ==>
           Outranks(ranges, i, j)
  }

  ghost predicate NothingAsked(ranges: seq<Range>) {
    forall i: nat, offer :: i < |ranges| && offer in OFFERS ==> !AsksFor(ranges[i], offer)
  }

  lemma {:induction false} StandsForIs(pattern: string)
    ensures forall offer :: offer in OFFERS ==>
      (StandsFor(pattern, offer) <==> FirstOffer(OFFERS, pattern) == Some(offer))
    ensures FirstOffer(OFFERS, pattern).Some? ==> FirstOffer(OFFERS, pattern).value in OFFERS
  {
    assert LINKSET_JSON in OFFERS && HTML in OFFERS && "application" != "text";
    hide CutAt, EndsWith, OFFERS;
    OfferFor(pattern);
    if pattern in OFFERS {
      OfferEnds(pattern);
    }
  }

  /** An entry asks for an offer when it can decide, and then for the first offer that matches. */
  ghost predicate AskedBy(range: Range) {
    && (Eligible(range) ==> FirstOffer(OFFERS, range.0).Some? && FirstOffer(OFFERS, range.0).value in OFFERS)
    && forall offer :: offer in OFFERS ==>
         (AsksFor(range, offer) <==> Eligible(range) && FirstOffer(OFFERS, range.0) == Some(offer))
  }

  lemma AsksForIs(range: Range)
    ensures AskedBy(range)
  {
    hide OFFERS, StandsFor;
    StandsForIs(range.0);
  }

  /**
   * Which type is sent, in terms of the entries: the one some entry asks for that outranks every entry asking for
   * another type; the default if no entry asks for any.
   */
  lemma SentExactly(accept: string, number: Number, offer: string)
    requires offer in OFFERS
    ensures var ranges := Ranges(accept, number);
      SelectMediaType(accept, number) == offer <==>
        Leads(ranges, offer) || (NothingAsked(ranges) && offer == DEFAULT)
  {
    hide Ranges, SelectMediaType, OFFERS, AsksFor, Eligible, FirstOffer, Leads;
    var ranges := Ranges(accept, number);
    SelectIsBest(accept, number);
    if b: nat :| Best(ranges, b) {
      BestLeads(ranges, b, offer);
    } else {
      NoneLeads(ranges, offer);
    }
  }

  lemma BestLeads(ranges: seq<Range>, b: nat, offer: string)
    requires Best(ranges, b) && offer in OFFERS
    ensures Leads(ranges, offer) <==> FirstOffer(OFFERS, ranges[b].0) == Some(offer)
    ensures !NothingAsked(ranges)
  {
    hide OFFERS, AsksFor, Eligible, FirstOffer;
    forall i: nat | i < |ranges| ensures AskedBy(ranges[i]) {
      AsksForIs(ranges[i]);
    }
    var best := FirstOffer(OFFERS, ranges[b].0);
    assert AskedBy(ranges[b]);
    if best == Some(offer) {
      forall j: nat, other | j < |ranges| && other in OFFERS && other != offer && AsksFor(ranges[j], other)
        ensures Outranks(ranges, b, j)
      {
        assert AskedBy(ranges[j]);
      }
    } else {
      assert AsksFor(ranges[b], best.value);
      forall i: nat | i < |ranges| && AsksFor(ranges[i], offer) ensures !Outranks(ranges, i, b) {
        assert AskedBy(ranges[i]);
      }
    }
  }

  lemma NoneLeads(ranges: seq<Range>, offer: string)
    requires offer in OFFERS && forall j :: 0 <= j < |ranges| ==> !Eligible(ranges[j])
    ensures !Leads(ranges, offer) && NothingAsked(ranges)
  {
    hide OFFERS, AsksFor, Eligible, FirstOffer;
    forall i: nat | i < |ranges| ensures AskedBy(ranges[i]) {
      AsksForIs(ranges[i]);
    }
    assert forall i: nat :: i < |ranges| ==> AskedBy(ranges[i]);
  }

  /**
   * Section 5.3.2 of RFC 7231 gives quality zero the meaning "not acceptable"; here it only skips the entry.
   * When a refused media type is sent all the same: exactly when some entry, a wildcard or the same type again, asks
   * for it and outranks all that ask for others, or when no entry asks for anything and the default is refused.
   */
  lemma RefusedAnyway(accept: string, number: Number)
    ensures var ranges := Ranges(accept, number);
      Refuses(ranges, SelectMediaType(accept, number)) <==>
        || (exists offer :: offer in OFFERS && Refuses(ranges, offer) && Leads(ranges, offer))
        || (NothingAsked(ranges) && Refuses(ranges, DEFAULT))
  {
    hide Ranges, SelectMediaType, Refuses, OFFERS, Leads, NothingAsked;
    SelectedIsOffer(accept, number);
    forall offer | offer in OFFERS
      ensures SelectMediaType(accept, number) == offer <==>
        Leads(Ranges(accept, number), offer) || (NothingAsked(Ranges(accept, number)) && offer == DEFAULT)
    {
      SentExactly(accept, number, offer);
    }
  }

  lemma SelectedIsOffer(accept: string, number: Number)
    ensures SelectMediaType(accept, number) in OFFERS && DEFAULT in OFFERS
  {
    hide Ranges, ParseAccept, FirstOffer, BestOf;
    SelectByBest(accept, number);
    if BestOf(Ranges(accept, number)).Some? {
      StandsForIs(BestOf(Ranges(accept, number)).value.0);
    }
  }

  lemma StripNothing(s: string)
    requires s != "" && !IsSpace(s[0]) && !IsSpace(s[|s| - 1])
    ensures Strip(s) == s
  {
  }

  lemma RangesOfOne(a: string, number: Number)
    requires ',' !in a && Strip(a) == a != ""
    ensures Ranges(a, number) == [ReadRange(a, number)]
  {
    hide Strip, ReadRange, Split;
    SplitJoin([a], ',');
    assert Join([a], ",") == a;
    ReadOne(a, number);
  }

  /** A header that names HTML alone chooses it. */
  lemma HtmlChosen(number: Number)
    ensures SelectMediaType(HTML, number) == HTML
  {
    assert ',' !in HTML && ';' !in HTML && HTML[0] == 't' && HTML[|HTML| - 1] == 'l' && HTML[|HTML| - 1] != '*';
    assert HTML in OFFERS;
    hide OFFERS, HTML, CutAt, Strip, Split, ParseAccept;
    StripNothing(HTML);
    RangesOfOne(HTML, number);
    var ranges: seq<Range> := [(HTML, 1.0)];
    assert Ranges(HTML, number) == ranges;
    OfferFor(HTML);
    SelectByBest(HTML, number);
    assert BestOf(ranges[1..]) == None;
    OfferEnds(HTML);
  }

  lemma RangesOfTwo(a: string, b: string, number: Number)
    requires ',' !in a && ',' !in b && Strip(a) == a != "" && Strip(b) == b != ""
    ensures Ranges(Join([a, b], ","), number) == [ReadRange(a, number), ReadRange(b, number)]
  {
    hide Strip, ReadRange, Split, Join;
    var texts := [a, b];
    SplitJoin(texts, ',');
    ReadOne(a, number);
    ReadOne(b, number);
    ReadRangesAppend([a], [b], number);
    assert texts == [a] + [b];
  }

  /** Such a header: the link-set type is refused by name, and sent on the strength of a later wildcard. */
  lemma RefusedExample(number: Number)
    requires number("0") == Some(0.0)
    ensures var accept := Join([LINKSET_JSON + ";q=0", "*/*"], ",");
      Refuses(Ranges(accept, number), LINKSET_JSON) && SelectMediaType(accept, number) == LINKSET_JSON
  {
    var first := LINKSET_JSON + ";q=0";
    assert ',' !in LINKSET_JSON && ';' !in LINKSET_JSON && LINKSET_JSON[0] == 'a'
      && LINKSET_JSON[|LINKSET_JSON| - 1] == 'n';
    hide LINKSET_JSON;
    StripNothing(first);
    StripNothing("*/*");
    StripNothing(LINKSET_JSON);
    StripNothing("q=0");
    NamedRange(LINKSET_JSON, number);
    assert ReadRange("*/*", number) == ("*/*", 1.0);
    hide Strip, ReadRange, Split, Join, CutAt, EndsWith, StableSort;
    RangesOfTwo(first, "*/*", number);
    var ranges: seq<Range> := [(LINKSET_JSON, 0.0), ("*/*", 1.0)];
    assert Ranges(Join([first, "*/*"], ","), number) == ranges;
    assert ranges[0].0 == LINKSET_JSON;
    OfferFor("*/*");
    SelectByBest(Join([first, "*/*"], ","), number);
    assert BestOf(ranges[1..][1..]) == None;
    assert BestOf(ranges[1..]) == Some(ranges[1]);
  }

  lemma NamedRange(mediaType: string, number: Number)
    requires ';' !in mediaType && Strip(mediaType) == mediaType && Strip("q=0") == "q=0" && number("0") == Some(0.0)
    ensures ReadRange(mediaType + ";q=0", number) == (mediaType, 0.0)
  {
    hide Strip;
    var pieces := [mediaType, "q=0"];
    assert pieces[1..] == ["q=0"];
    assert Join(pieces, ";") == mediaType + ";" + "q=0" == mediaType + ";q=0";
    SplitJoin(pieces, ';');
    assert StripAll(pieces) == pieces;
    assert "q=0"[2..] == "0";
    assert (mediaType + ";q=0")[|mediaType|] == ';';
  }
}
