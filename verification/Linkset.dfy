/** The RFC 9264 link-set of a response. */
module Linkset {
  import opened Text
  import opened Dict
  import opened Router

  const GS1_VOC := "https://gs1.org/voc/"
  const GS1_PREFIX := "gs1:"

  /** The names `SHORT_TO_VOC` lists; each is expanded into the vocabulary. */
  const SHORT_NAMES: seq<string> := [
    "pip", "productInfo", "defaultLink", "certificationInfo", "epil", "hasRetailers", "productSupportLink",
    "recipeInfo", "safetyDataSheet", "safetyInfo", "serviceInfo", "smartLabel", "sustainabilityInfo",
    "traceability", "tutorial", "verificationService", "digitalProductPassport"
  ]

  function VocRows(names: seq<string>): Dict<string> {
    if names == [] then [] else [(GS1_PREFIX + names[0], GS1_VOC + names[0])] + VocRows(names[1..])
  }

  const SHORT_TO_VOC: Dict<string> := VocRows(SHORT_NAMES)

  /** `SHORT_TO_VOC["gs1:defaultLink"]`. */
  const DEFAULT_REL := GS1_VOC + "defaultLink"

  /** `expand_rel(rel)`. */
  function ExpandRel(rel: string): string {
    if StartsWith(rel, "http://") || StartsWith(rel, "https://") then rel
    else if Has(SHORT_TO_VOC, rel) then Value(SHORT_TO_VOC, rel)
    else if StartsWith(rel, GS1_PREFIX) then GS1_VOC + rel[|GS1_PREFIX|..]
    else rel
  }

  // ----- Link-sets ---------------------------------------------------------

  /** A link as it is listed; a part that is empty is left out. */
  datatype Entry = Entry(href: string, mediaType: Option<string>, title: Option<string>, hreflang: Option<seq<string>>)

  /** What the keys of a link-set entry hold. `V` is whatever the validator reports. */
  datatype Field<V> = Anchor(uri: string) | Links(links: seq<Entry>) | Validation(status: V)

  const ANCHOR := "anchor"
  const STATUS := "gs1:validationStatus"

  type Rels = seq<(string, LinkType)>

  function NonEmpty(s: string): Option<string> {
    if s == "" then None else Some(s)
  }

  function EntryOf(link: LinkType): Entry {
    Entry(link.href, NonEmpty(link.mediaType), NonEmpty(link.title),
      match link.hreflang
      case NoLang => None
      case OneLang(tag) => if tag == "" then None else Some([tag])
      case ManyLangs(tags) => if tags == [] then None else Some(tags))
  }

  /** `[(expand_rel(lt.rel), lt) for lt in links]`. */
  function Expand(links: seq<LinkType>): (e: Rels)
    ensures |e| == |links|
    ensures forall i :: 0 <= i < |links| ==> e[i] == (ExpandRel(links[i].rel), links[i])
  {
    if links == [] then [] else [(ExpandRel(links[0].rel), links[0])] + Expand(links[1..])
  }

  predicate HasRel(rels: Rels, rel: string) {
    exists i :: 0 <= i < |rels| && rels[i].0 == rel
  }

  /** The first link is also the default one where none is declared. */
  function Promote(rels: Rels): Rels {
    if rels != [] && !HasRel(rels, DEFAULT_REL) then rels + [(DEFAULT_REL, rels[0].1)] else rels
  }

  /** `[(r, lt) for r, lt in rels if r == wanted]`. */
  function OnlyRel(rels: Rels, wanted: string): Rels {
    if rels == [] then []
    else (if rels[0].0 == wanted then [rels[0]] else []) + OnlyRel(rels[1..], wanted)
  }

  /** A requested relation narrows the links, unless none has it. */
  function Narrow(rels: Rels, requested: Option<string>): Rels {
    if requested.None? || requested.value == "" then rels
    else
      var filtered := OnlyRel(rels, ExpandRel(requested.value));
      if filtered != [] then filtered else rels
  }

  /** The links of the response with their relations, in order. */
  function Surviving(links: seq<LinkType>, requested: Option<string>): Rels {
    Narrow(Promote(Expand(links)), requested)
  }

  function ListedLinks(rels: Rels): (e: seq<(string, Entry)>)
    ensures |e| == |rels|
    ensures forall i :: 0 <= i < |rels| ==> e[i] == (rels[i].0, EntryOf(rels[i].1))
  {
    if rels == [] then [] else [(rels[0].0, EntryOf(rels[0].1))] + ListedLinks(rels[1..])
  }

  function AsFields<V>(grouped: Dict<seq<Entry>>): (f: Dict<Field<V>>)
    ensures |f| == |grouped|
    ensures forall i :: 0 <= i < |grouped| ==> f[i] == (grouped[i].0, Links(grouped[i].1))
  {
    if grouped == [] then [] else [(grouped[0].0, Links(grouped[0].1))] + AsFields(grouped[1..])
  }

  /** `build_linkset(anchor, links, requested_link_type, validation)`: the one entry of its list. */
  function BuildLinkset<V>(
    anchor: string, links: seq<LinkType>, requested: Option<string>, validation: Option<V>): Dict<Field<V>> {
    if links == [] then [(ANCHOR, Anchor(anchor))]
    else
      var entry := Merge([(ANCHOR, Anchor(anchor))], AsFields(Group(ListedLinks(Surviving(links, requested)))));
      if validation.Some? then Put(entry, STATUS, Validation(validation.value)) else entry
  }

  /** `default_link_href(linkset)`. */
  function DefaultLinkHref<V>(entry: Dict<Field<V>>): Option<string> {
    match Get<Field<V>>(entry, DEFAULT_REL)
    case Some(Links(links)) => if links != [] && links[0].href != "" then Some(links[0].href) else None
    case _ => None
  }

  /** The loop that fills `grouped`. */
  method GroupByRel(expanded: Rels) returns (grouped: Dict<seq<Entry>>)
    ensures grouped == Group(ListedLinks(expanded))
  {
    hide Put, EntryOf, Group, Get, ListedLinks;
    grouped := [];
    GroupNothing(ListedLinks(expanded));
    for i := 0 to |expanded|
      invariant grouped == Group(ListedLinks(expanded)[..i])
    {
      var (rel, link) := expanded[i];
      var languages := match link.hreflang
        case NoLang => None
        case OneLang(tag) => (if tag == "" then None else Some([tag]))
        case ManyLangs(tags) => if tags == [] then None else Some(tags);
      var listed := Entry(link.href, NonEmpty(link.mediaType), NonEmpty(link.title), languages);
      assert listed == EntryOf(link) by { EntryParts(link); }
      grouped := Put(grouped, rel, GetOr(grouped, rel, []) + [listed]);
      GroupNext(ListedLinks(expanded), i);
    }
    assert ListedLinks(expanded)[..|expanded|] == ListedLinks(expanded);
  }

  method Build<V>(anchor: string, links: seq<LinkType>, requested: Option<string>, validation: Option<V>)
    returns (entry: Dict<Field<V>>)
    ensures entry == BuildLinkset(anchor, links, requested, validation)
  {
    hide ExpandRel, Put, EntryOf, Group, Get, Merge, AsFields, OnlyRel, DEFAULT_REL;
    if links == [] {
      return [(ANCHOR, Anchor(anchor))];
    }
    var expanded := Expand(links);
    var hasDefault := exists i :: 0 <= i < |expanded| && expanded[i].0 == DEFAULT_REL;
    if !hasDefault && expanded != [] {
      expanded := expanded + [(DEFAULT_REL, expanded[0].1)];
    }
    if requested.Some? && requested.value != "" {
      var filtered := OnlyRel(expanded, ExpandRel(requested.value));
      if filtered != [] {
        expanded := filtered;
      }
    }
    assert expanded == Surviving(links, requested);
    var grouped := GroupByRel(expanded);
    entry := Merge([(ANCHOR, Anchor(anchor))], AsFields(grouped));
    if validation.Some? {
      entry := Put(entry, STATUS, Validation(validation.value));
    }
  }

  lemma GroupNothing(pairs: seq<(string, Entry)>)
    ensures Group(pairs[..0]) == []
  {
  }

  lemma GroupNext(pairs: seq<(string, Entry)>, i: nat)
    requires i < |pairs|
    ensures Group(pairs[..i + 1])
      == Put(Group(pairs[..i]), pairs[i].0, GetOr(Group(pairs[..i]), pairs[i].0, []) + [pairs[i].1])
  {
    assert pairs[..i + 1][..i] == pairs[..i];
  }

  lemma EntryParts(link: LinkType)
    ensures EntryOf(link) == Entry(link.href, NonEmpty(link.mediaType), NonEmpty(link.title),
      match link.hreflang
      case NoLang => None
      case OneLang(tag) => if tag == "" then None else Some([tag])
      case ManyLangs(tags) => if tags == [] then None else Some(tags))
  {
  }

  // ----- Relations ---------------------------------------------------------

  lemma {:induction false} VocRowsExpand(names: seq<string>, rel: string)
    requires Has(VocRows(names), rel)
    ensures StartsWith(rel, GS1_PREFIX) && Value(VocRows(names), rel) == GS1_VOC + rel[|GS1_PREFIX|..]
  {
    if rel == GS1_PREFIX + names[0] {
      assert rel[|GS1_PREFIX|..] == names[0];
    } else {
      VocRowsExpand(names[1..], rel);
    }
  }

  /**
   * The table adds nothing to the rule below it: a full IRI stays, a `gs1:` name is moved into the vocabulary,
   * anything else stays. No relation is ever left with the `gs1:` prefix, and expanding twice is expanding once.
   */
  lemma ExpandIsRule(rel: string)
    ensures ExpandRel(rel) == if StartsWith(rel, GS1_PREFIX) then GS1_VOC + rel[|GS1_PREFIX|..] else rel
    ensures !StartsWith(ExpandRel(rel), GS1_PREFIX)
    ensures ExpandRel(ExpandRel(rel)) == ExpandRel(rel)
  {
    hide Get, VocRows;
    if Has(SHORT_TO_VOC, rel) {
      VocRowsExpand(SHORT_NAMES, rel);
    }
    FirstLetters(rel);
    if StartsWith(rel, GS1_PREFIX) {
      FirstLetters(GS1_VOC + rel[|GS1_PREFIX|..]);
      VocIsIri(rel[|GS1_PREFIX|..]);
    } else if Has(SHORT_TO_VOC, ExpandRel(rel)) {
      VocRowsExpand(SHORT_NAMES, ExpandRel(rel));
    }
  }

  lemma FirstLetters(rel: string)
    ensures StartsWith(rel, GS1_PREFIX) ==> rel[0] == 'g'
    ensures StartsWith(rel, "http://") || StartsWith(rel, "https://") ==> rel[0] == 'h'
  {
  }

  lemma VocIsIri(name: string)
    ensures StartsWith(GS1_VOC + name, "https://") && (GS1_VOC + name)[0] == 'h'
  {
    assert (GS1_VOC + name)[..8] == "https://";
  }

  /** The constant named in the code is what its table holds. */
  lemma DefaultRelInTable()
    ensures ExpandRel("gs1:defaultLink") == DEFAULT_REL
  {
    hide ExpandRel;
    ExpandIsRule("gs1:defaultLink");
    assert "gs1:defaultLink"[..4] == GS1_PREFIX && "gs1:defaultLink"[4..] == "defaultLink";
  }

  lemma {:induction false} OnlyRelIs(rels: Rels, wanted: string)
    ensures forall i :: 0 <= i < |OnlyRel(rels, wanted)| ==>
      OnlyRel(rels, wanted)[i].0 == wanted && OnlyRel(rels, wanted)[i] in rels
    ensures OnlyRel(rels, wanted) != [] <==> HasRel(rels, wanted)
  {
    if rels == [] {
    } else {
      OnlyRelIs(rels[1..], wanted);
      assert HasRel(rels[1..], wanted) ==> HasRel(rels, wanted) by {
        if i :| 0 <= i < |rels[1..]| && rels[1..][i].0 == wanted { assert rels[i + 1].0 == wanted; }
      }
      if HasRel(rels, wanted) && rels[0].0 != wanted {
        var i :| 0 <= i < |rels| && rels[i].0 == wanted;
        assert rels[1..][i - 1].0 == wanted;
      }
    }
  }

  /** No surviving relation has the reserved prefix. */
  lemma SurvivingRels(links: seq<LinkType>, requested: Option<string>, i: nat)
    requires i < |Surviving(links, requested)|
    ensures !StartsWith(Surviving(links, requested)[i].0, GS1_PREFIX)
  {
    hide ExpandRel;
    var promoted := Promote(Expand(links));
    forall j | 0 <= j < |promoted| ensures !StartsWith(promoted[j].0, GS1_PREFIX) {
      if j < |links| {
        ExpandIsRule(links[j].rel);
      } else {
        DefaultRelInTable();
        ExpandIsRule("gs1:defaultLink");
      }
    }
    if requested.Some? {
      OnlyRelIs(promoted, ExpandRel(requested.value));
    }
  }

  // ----- Grouping conserves links ------------------------------------------

  lemma {:induction false} GetAsFields<V>(grouped: Dict<seq<Entry>>, k: string)
    ensures Get(AsFields<V>(grouped), k) == match Get(grouped, k) case Some(ls) => Some(Links(ls)) case None => None
  {
    if grouped == [] {
    } else {
      GetAsFields<V>(grouped[1..], k);
      assert AsFields<V>(grouped)[1..] == AsFields<V>(grouped[1..]);
    }
  }

  lemma {:induction false} AsFieldsUnique<V>(grouped: Dict<seq<Entry>>)
    requires Unique(grouped)
    ensures Unique(AsFields<V>(grouped))
  {
    assert Keys(AsFields<V>(grouped)) == Keys(grouped);
  }

  /** The entries listed under a relation: the links that have it, in order. */
  function EntriesUnder(rels: Rels, rel: string): seq<Entry> {
    ValuesOf(ListedLinks(rels), rel)
  }

  /**
   * A relation without links has no key; one with links lists exactly them; the anchor stays unless a relation takes
   * its name.
   */
  function FieldMeaning<V>(anchor: string, rels: Rels, validation: Option<V>, k: string): Option<Field<V>> {
    if k == STATUS then (match validation case Some(v) => Some(Validation(v)) case None => None)
    else if EntriesUnder(rels, k) != [] then Some(Links(EntriesUnder(rels, k)))
    else if k == ANCHOR then Some(Anchor(anchor))
    else None
  }

  lemma {:induction false} NoneUnder(rels: Rels, rel: string)
    ensures EntriesUnder(rels, rel) != [] <==> HasRel(rels, rel)
  {
    if rels == [] {
    } else {
      NoneUnder(rels[1..], rel);
      assert ListedLinks(rels)[1..] == ListedLinks(rels[1..]);
      if i :| 0 <= i < |rels[1..]| && rels[1..][i].0 == rel {
        assert rels[i + 1].0 == rel;
      }
      if HasRel(rels, rel) && rels[0].0 != rel {
        var i :| 0 <= i < |rels| && rels[i].0 == rel;
        assert rels[1..][i - 1].0 == rel;
      }
    }
  }

  lemma StatusReserved(links: seq<LinkType>, requested: Option<string>)
    ensures EntriesUnder(Surviving(links, requested), STATUS) == []
  {
    hide Surviving, EntriesUnder;
    var rels := Surviving(links, requested);
    NoneUnder(rels, STATUS);
    assert StartsWith(STATUS, GS1_PREFIX) by { assert STATUS[..4] == GS1_PREFIX; }
    if HasRel(rels, STATUS) {
      var i :| 0 <= i < |rels| && rels[i].0 == STATUS;
      SurvivingRels(links, requested, i);
    }
  }

  /** What every key of the response's entry holds. */
  lemma {:induction false} LinksetMeaning<V>(
    anchor: string, links: seq<LinkType>, requested: Option<string>, validation: Option<V>, k: string)
    requires links != []
    ensures Get(BuildLinkset(anchor, links, requested, validation), k)
         == FieldMeaning(anchor, Surviving(links, requested), validation, k)
  {
    hide Surviving, Merge, Put, Group, ListedLinks, ValuesOf;
    var rels := Surviving(links, requested);
    var grouped := Group(ListedLinks(rels));
    var fields := AsFields<V>(grouped);
    var start: Dict<Field<V>> := [(ANCHOR, Anchor(anchor))];
    GroupValues(ListedLinks(rels), k);
    GroupUnique(ListedLinks(rels));
    AsFieldsUnique<V>(grouped);
    GetAsFields<V>(grouped, k);
    GetMerge(start, fields, k);
    assert Get(start, k) == if k == ANCHOR then Some(Anchor(anchor))
      else None by { GetOne(ANCHOR, Field<V>.Anchor(anchor), k); }
    hide Get;
    StatusReserved(links, requested);
    if validation.Some? {
      GetPut(Merge(start, fields), STATUS, Validation(validation.value), k);
    }
    assert ANCHOR != STATUS;
  }

  /**
   * Each relation's list is exactly the surviving links that have it, in their order; the anchor is kept
   * exactly when no surviving relation is named `anchor`.
   */
  lemma {:induction false} GroupingKeepsLinks<V>(
    anchor: string, links: seq<LinkType>, requested: Option<string>, validation: Option<V>, rel: string)
    requires links != []
    ensures var rels := Surviving(links, requested); var entry := BuildLinkset(anchor, links, requested, validation);
      && (HasRel(rels, rel) ==> Get(entry, rel) == Some(Links(EntriesUnder(rels, rel))))
      && (!HasRel(rels, rel) && rel != ANCHOR && rel != STATUS ==> Get(entry, rel) == None)
      && (Get(entry, ANCHOR) == Some(Anchor(anchor)) <==> !HasRel(rels, ANCHOR))
  {
    hide Surviving, BuildLinkset, EntriesUnder, Get, HasRel;
    var rels := Surviving(links, requested);
    LinksetMeaning(anchor, links, requested, validation, rel);
    LinksetMeaning(anchor, links, requested, validation, ANCHOR);
    NoneUnder(rels, rel);
    NoneUnder(rels, ANCHOR);
    StatusReserved(links, requested);
    assert ANCHOR != STATUS;
  }

  /** How many links a link-set entry lists. */
  function ListedTotal<V>(entry: Dict<Field<V>>): nat {
    if entry == [] then 0 else Listed(entry[0].1) + ListedTotal(entry[1..])
  }

  function Listed<V>(f: Field<V>): nat {
    match f case Links(ls) => |ls| case _ => 0
  }

  function ListedAt<V>(entry: Dict<Field<V>>, k: string): nat {
    match Get(entry, k) case Some(f) => Listed(f) case None => 0
  }

  lemma {:induction false} ListedTotalPut<V>(d: Dict<Field<V>>, k: string, f: Field<V>)
    ensures ListedTotal(Put(d, k, f)) + ListedAt(d, k) == ListedTotal(d) + Listed(f)
  {
    hide Listed;
    var e := Put(d, k, f);
    if d == [] {
      assert e[1..] == [];
    } else if d[0].0 == k {
      assert e[1..] == d[1..];
    } else {
      ListedTotalPut(d[1..], k, f);
      assert e[1..] == Put(d[1..], k, f);
    }
  }

  lemma {:induction false} ListedTotalMerge<V>(d: Dict<Field<V>>, e: Dict<Field<V>>)
    requires Unique(e)
    requires forall i :: 0 <= i < |e| ==> ListedAt(d, e[i].0) == 0
    ensures ListedTotal(Merge(d, e)) == ListedTotal(d) + ListedTotal(e)
    decreases e
  {
    hide Listed;
    if e == [] {
    } else {
      var next := Put(d, e[0].0, e[0].1);
      ListedTotalPut(d, e[0].0, e[0].1);
      HeadOnce(e);
      forall i | 0 <= i < |e[1..]| ensures ListedAt(next, e[1..][i].0) == 0 {
        assert e[1..][i] == e[i + 1];
        GetPut(d, e[0].0, e[0].1, e[i + 1].0);
        assert Keys(e)[0] != Keys(e)[i + 1];
      }
      ListedTotalMerge(next, e[1..]);
    }
  }

  lemma {:induction false} ListedTotalFields<V>(grouped: Dict<seq<Entry>>)
    ensures ListedTotal(AsFields<V>(grouped)) == TotalLength(grouped)
  {
    if grouped == [] {
    } else {
      ListedTotalFields<V>(grouped[1..]);
      assert AsFields<V>(grouped)[1..] == AsFields<V>(grouped[1..]);
    }
  }

  /** No link is lost and none is listed twice: the entry lists as many links as survive. */
  lemma LinksConserved<V>(anchor: string, links: seq<LinkType>, requested: Option<string>, validation: Option<V>)
    requires links != []
    ensures ListedTotal(BuildLinkset(anchor, links, requested, validation)) == |Surviving(links, requested)|
  {
    hide Surviving, Merge, Put, Group, ListedLinks, AsFields, Get, ListedTotal, TotalLength;
    var rels := Surviving(links, requested);
    var grouped := Group(ListedLinks(rels));
    var fields := AsFields<V>(grouped);
    var start: Dict<Field<V>> := [(ANCHOR, Anchor(anchor))];
    GroupTotal(ListedLinks(rels));
    GroupUnique(ListedLinks(rels));
    AsFieldsUnique<V>(grouped);
    ListedTotalFields<V>(grouped);
    StartListsNone(anchor, fields);
    ListedTotalMerge(start, fields);
    if validation.Some? {
      ListedTotalPut(Merge(start, fields), STATUS, Validation(validation.value));
      LinksetMeaning<V>(anchor, links, requested, None, STATUS);
    }
  }

  lemma StartListsNone<V>(anchor: string, fields: Dict<Field<V>>)
    ensures var start: Dict<Field<V>> := [(ANCHOR, Anchor(anchor))];
      ListedTotal(start) == 0 && forall i :: 0 <= i < |fields| ==> ListedAt(start, fields[i].0) == 0
  {
    var start: Dict<Field<V>> := [(ANCHOR, Anchor(anchor))];
    assert start[1..] == [];
    forall i | 0 <= i < |fields| ensures ListedAt(start, fields[i].0) == 0 {
      GetOne(ANCHOR, Field<V>.Anchor(anchor), fields[i].0);
    }
  }

  // ----- Promotion and narrowing -------------------------------------------

  /** A declared default link: a full IRI or the short name. */
  predicate DeclaresDefault(links: seq<LinkType>) {
    exists i :: 0 <= i < |links| && ExpandRel(links[i].rel) == DEFAULT_REL
  }

  /** Whether the requested relation is one the links have, the promoted default included. */
  predicate Narrowed(links: seq<LinkType>, requested: Option<string>) {
    requested.Some? && requested.value != "" && HasRel(Promote(Expand(links)), ExpandRel(requested.value))
  }

  lemma {:induction false} ExpandHasRel(links: seq<LinkType>, rel: string)
    ensures HasRel(Expand(links), rel) <==> exists i :: 0 <= i < |links| && ExpandRel(links[i].rel) == rel
  {
    hide ExpandRel;
    if HasRel(Expand(links), rel) {
      var i :| 0 <= i < |links| && Expand(links)[i].0 == rel;
      assert ExpandRel(links[i].rel) == rel;
    }
    if i :| 0 <= i < |links| && ExpandRel(links[i].rel) == rel {
      assert Expand(links)[i].0 == rel;
    }
  }

  /**
   * Without narrowing, every link is there, a default link is there, and exactly one link is added when none
   * was declared as default; a relation that some link has narrows the response to that relation alone.
   */
  lemma {:induction false} PromotionAndNarrowing(links: seq<LinkType>, requested: Option<string>)
    requires links != []
    ensures var rels := Surviving(links, requested);
      if Narrowed(links, requested) then
        rels != [] && forall i :: 0 <= i < |rels| ==>
          rels[i].0 == ExpandRel(requested.value) && rels[i] in Promote(Expand(links))
      else
        && |rels| == |links| + (if DeclaresDefault(links) then 0 else 1)
        && rels[..|links|] == Expand(links)
        && HasRel(rels, DEFAULT_REL)
  {
    hide ExpandRel, DEFAULT_REL;
    var all := Promote(Expand(links));
    ExpandHasRel(links, DEFAULT_REL);
    assert all[..|links|] == Expand(links);
    if !HasRel(Expand(links), DEFAULT_REL) {
      assert all[|links|].0 == DEFAULT_REL;
    }
    if requested.Some? {
      OnlyRelIs(all, ExpandRel(requested.value));
    }
  }

  /** A matching `linkType` leaves exactly one relation in the response, and its list is not empty. */
  lemma {:induction false} NarrowedToOne<V>(
    anchor: string, links: seq<LinkType>, requested: Option<string>, validation: Option<V>, k: string)
    requires links != [] && Narrowed(links, requested)
    ensures var entry := BuildLinkset(anchor, links, requested, validation);
      Get(entry, k).Some? && Get(entry, k).value.Links? ==> k == ExpandRel(requested.value)
    ensures var entry := BuildLinkset(anchor, links, requested, validation);
      var rel := ExpandRel(requested.value);
      Has(entry, rel) && Value(entry, rel).Links? && Value(entry, rel).links != []
  {
    hide Surviving, BuildLinkset, EntriesUnder, Get, ExpandRel, Promote, Narrowed;
    NarrowedHas(links, requested);
    var rel := ExpandRel(requested.value);
    var rels := Surviving(links, requested);
    PromotionAndNarrowing(links, requested);
    LinksetMeaning(anchor, links, requested, validation, k);
    LinksetMeaning(anchor, links, requested, validation, rel);
    NoneUnder(rels, k);
    NoneUnder(rels, rel);
    StatusReserved(links, requested);
    assert HasRel(rels, rel) by { assert rels[0].0 == rel; }
  }

  // ----- What is listed, said of the declared links ------------------------

  /** The declared links that have a relation, in order. */
  function DeclaredUnder(links: seq<LinkType>, rel: string): seq<Entry> {
    if links == [] then []
    else (if ExpandRel(links[0].rel) == rel then [EntryOf(links[0])] else []) + DeclaredUnder(links[1..], rel)
  }

  /** The links listed under a relation: the declared ones, and the first as the default where none is declared. */
  function ListedUnder(links: seq<LinkType>, rel: string): seq<Entry> {
    DeclaredUnder(links, rel)
    + (if rel == DEFAULT_REL && links != [] && !DeclaresDefault(links) then [EntryOf(links[0])] else [])
  }

  lemma {:induction false} UnderExpanded(links: seq<LinkType>, rel: string)
    ensures EntriesUnder(Expand(links), rel) == DeclaredUnder(links, rel)
  {
    hide ExpandRel, EntryOf;
    if links == [] {
    } else {
      UnderExpanded(links[1..], rel);
      assert Expand(links)[1..] == Expand(links[1..]);
      assert ListedLinks(Expand(links))[1..] == ListedLinks(Expand(links[1..]));
    }
  }

  lemma {:induction false} UnderAppend(a: Rels, b: Rels, rel: string)
    ensures EntriesUnder(a + b, rel) == EntriesUnder(a, rel) + EntriesUnder(b, rel)
  {
    hide EntryOf, ValuesOf;
    ListedAppend(a, b);
    ValuesOfAppend(ListedLinks(a), ListedLinks(b), rel);
  }

  lemma {:induction false} ListedAppend(a: Rels, b: Rels)
    ensures ListedLinks(a + b) == ListedLinks(a) + ListedLinks(b)
  {
    hide EntryOf, ListedLinks;
    forall i | 0 <= i < |a + b| ensures ListedLinks(a + b)[i] == (ListedLinks(a) + ListedLinks(b))[i] {
    }
  }

  lemma {:induction false} UnderOne(rel: string, link: LinkType, wanted: string)
    ensures EntriesUnder([(rel, link)], wanted) == if rel == wanted then [EntryOf(link)] else []
  {
    hide EntryOf;
    var one := [(rel, EntryOf(link))];
    assert ListedLinks([(rel, link)]) == one;
    assert ValuesOf(one, wanted) == (if rel == wanted then [EntryOf(link)] else []) + ValuesOf(one[1..], wanted);
  }

  lemma {:induction false} UnderPromoted(links: seq<LinkType>, rel: string)
    ensures EntriesUnder(Promote(Expand(links)), rel) == ListedUnder(links, rel)
  {
    hide ExpandRel, EntryOf, EntriesUnder, DEFAULT_REL, DeclaredUnder;
    UnderExpanded(links, rel);
    ExpandHasRel(links, DEFAULT_REL);
    if links != [] {
      UnderOne(DEFAULT_REL, links[0], rel);
      UnderAppend(Expand(links), [(DEFAULT_REL, links[0])], rel);
    }
    assert DeclaredUnder(links, rel) + [] == DeclaredUnder(links, rel);
  }

  lemma {:induction false} UnderOnly(rels: Rels, wanted: string, rel: string)
    ensures EntriesUnder(OnlyRel(rels, wanted), rel) == if rel == wanted then EntriesUnder(rels, rel) else []
  {
    hide EntryOf, EntriesUnder;
    if rels == [] {
      assert EntriesUnder([], rel) == [] by { UnderNothing(rel); }
    } else {
      var (r, link) := rels[0];
      UnderOnly(rels[1..], wanted, rel);
      UnderOne(r, link, rel);
      UnderAppend([rels[0]], rels[1..], rel);
      UnderAppend([rels[0]], OnlyRel(rels[1..], wanted), rel);
      assert rels == [rels[0]] + rels[1..];
      assert [] + OnlyRel(rels[1..], wanted) == OnlyRel(rels[1..], wanted);
    }
  }

  lemma {:induction false} UnderNothing(rel: string)
    ensures EntriesUnder([], rel) == []
  {
  }

  /** A request is narrowed exactly when it asks for a relation, not the empty one, under which a link is listed. */
  lemma {:induction false} NarrowedExactly(links: seq<LinkType>, requested: Option<string>)
    ensures Narrowed(links, requested) <==>
      requested.Some? && requested.value != "" && ListedUnder(links, ExpandRel(requested.value)) != []
  {
    hide ExpandRel, Promote, Expand, ListedUnder, EntriesUnder;
    if requested.Some? {
      UnderPromoted(links, ExpandRel(requested.value));
      NoneUnder(Promote(Expand(links)), ExpandRel(requested.value));
    }
  }

  /**
   * The entry of a response, key by key, in terms of the declared links: every link is listed under its relation and
   * none is left out, unless the response is narrowed to another relation.
   */
  lemma {:induction false} ListedExactly<V>(
    anchor: string, links: seq<LinkType>, requested: Option<string>, validation: Option<V>, k: string)
    requires links != []
    ensures var listed := if Narrowed(links, requested) && k != ExpandRel(requested.value) then []
                          else ListedUnder(links, k);
      Get(BuildLinkset(anchor, links, requested, validation), k) ==
        if k == "gs1:validationStatus" then (match validation case Some(v) => Some(Validation(v)) case None => None)
        else if listed != [] then Some(Links(listed))
        else if k == "anchor" then Some(Anchor(anchor))
        else None
  {
    hide ExpandRel, Surviving, BuildLinkset, EntriesUnder, Get, ListedUnder, Narrowed;
    LinksetMeaning(anchor, links, requested, validation, k);
    UnderSurviving(links, requested, k);
  }

  lemma {:induction false} UnderSurviving(links: seq<LinkType>, requested: Option<string>, k: string)
    ensures EntriesUnder(Surviving(links, requested), k) ==
      if Narrowed(links, requested) && k != ExpandRel(requested.value) then [] else ListedUnder(links, k)
  {
    hide ExpandRel, Promote, Expand, EntriesUnder, ListedUnder;
    UnderPromoted(links, k);
    if requested.Some? {
      var wanted := ExpandRel(requested.value);
      UnderOnly(Promote(Expand(links)), wanted, k);
      OnlyRelIs(Promote(Expand(links)), wanted);
    }
  }

  /** A link as it is listed: parts that are empty are left out, one language is a list of one. */
  lemma {:induction false} EntryMeaning(link: LinkType)
    ensures var e := EntryOf(link);
      && e.href == link.href
      && (e.mediaType == Some(link.mediaType) <==> link.mediaType != "")
      && (e.mediaType == None <==> link.mediaType == "")
      && (e.title == Some(link.title) <==> link.title != "") && (e.title == None <==> link.title == "")
      && (link.hreflang == NoLang || link.hreflang == OneLang("") || link.hreflang == ManyLangs([]) <==>
            e.hreflang == None)
      && (link.hreflang.OneLang? && link.hreflang.tag != "" ==> e.hreflang == Some([link.hreflang.tag]))
      && (link.hreflang.ManyLangs? && link.hreflang.tags != [] ==> e.hreflang == Some(link.hreflang.tags))
  {
  }

  /** Full IRIs: one name, and the default relation. */
  lemma {:induction false} ExpandExamples()
    ensures ExpandRel("gs1:pip") == "https://gs1.org/voc/pip" && DEFAULT_REL == "https://gs1.org/voc/defaultLink"
  {
    hide ExpandRel;
    ExpandIsRule("gs1:pip");
    assert "gs1:pip"[..4] == "gs1:" && "gs1:pip"[4..] == "pip";
  }

  lemma ExpandsToAnchor(rel: string)
    ensures ExpandRel(rel) == ANCHOR <==> rel == ANCHOR
    ensures DEFAULT_REL != ANCHOR
  {
    hide ExpandRel;
    ExpandIsRule(rel);
    assert ANCHOR[0] == 'a' && DEFAULT_REL[0] == 'h' && GS1_PREFIX[0] == 'g';
    if StartsWith(rel, GS1_PREFIX) {
      VocIsIri(rel[|GS1_PREFIX|..]);
    }
  }

  /**
   * The anchor is lost exactly when the operator names a relation `anchor` and the response is not narrowed
   * to another relation.
   */
  lemma AnchorLost<V>(anchor: string, links: seq<LinkType>, requested: Option<string>, validation: Option<V>)
    requires links != []
    ensures Get(BuildLinkset(anchor, links, requested, validation), ANCHOR) != Some(Anchor(anchor))
      <==> ((exists i :: 0 <= i < |links| && links[i].rel == ANCHOR)
            && (Narrowed(links, requested) ==> requested.value == ANCHOR))
  {
    hide Surviving, BuildLinkset, Get, ExpandRel, DEFAULT_REL, Promote, Narrowed, ANCHOR;
    GroupingKeepsLinks(anchor, links, requested, validation, ANCHOR);
    var rels := Surviving(links, requested);
    PromotionAndNarrowing(links, requested);
    if Narrowed(links, requested) { NarrowedHas(links, requested); }
    ExpandHasRel(links, ANCHOR);
    PromoteHasAnchor(links);
    forall i | 0 <= i < |links| ensures ExpandRel(links[i].rel) == ANCHOR <==> links[i].rel == ANCHOR {
      ExpandsToAnchor(links[i].rel);
    }
    if Narrowed(links, requested) {
      ExpandsToAnchor(requested.value);
      assert rels[0].0 == ExpandRel(requested.value);
    } else {
      NotNarrowed(links, requested);
    }
  }

  /** One link whose relation is named `anchor`: the entry has no anchor any more. */
  lemma AnchorLostExample<V>(anchor: string, href: string)
    ensures var link := LinkType(ANCHOR, href, "", "", NoLang);
      Get(BuildLinkset<V>(anchor, [link], None, None), ANCHOR) == Some(Links([Entry(href, None, None, None)]))
  {
    var link := LinkType(ANCHOR, href, "", "", NoLang);
    var rels := Surviving([link], None);
    ExpandsToAnchor(ANCHOR);
    hide ExpandRel, DEFAULT_REL, BuildLinkset, ANCHOR, Get;
    assert Expand([link]) == [(ANCHOR, link)];
    assert rels == [(ANCHOR, link), (DEFAULT_REL, link)];
    LinksetMeaning<V>(anchor, [link], None, None, ANCHOR);
    StatusReserved([link], None);
    assert ListedLinks(rels) == [(ANCHOR, EntryOf(link)), (DEFAULT_REL, EntryOf(link))];
    TwoValues((ANCHOR, EntryOf(link)), (DEFAULT_REL, EntryOf(link)));
  }

  lemma TwoValues(a: (string, Entry), b: (string, Entry))
    requires a.0 != b.0
    ensures ValuesOf([a, b], a.0) == [a.1]
  {
    assert [a, b][1..] == [b] && [b][1..] == [];
    assert ValuesOf([b], a.0) == [] + ValuesOf([b][1..], a.0);
  }

  lemma {:induction false} PromoteHasAnchor(links: seq<LinkType>)
    ensures HasRel(Promote(Expand(links)), ANCHOR) <==> HasRel(Expand(links), ANCHOR)
  {
    hide ExpandRel, DEFAULT_REL, ANCHOR;
    ExpandsToAnchor("");
    var e := Expand(links);
    if i :| 0 <= i < |e| && e[i].0 == ANCHOR {
      assert Promote(e)[i].0 == ANCHOR;
    }
  }

  lemma {:induction false} NarrowedHas(links: seq<LinkType>, requested: Option<string>)
    requires Narrowed(links, requested)
    ensures requested.Some? && HasRel(Promote(Expand(links)), ExpandRel(requested.value))
  {
  }

  lemma {:induction false} NotNarrowed(links: seq<LinkType>, requested: Option<string>)
    requires !Narrowed(links, requested)
    ensures Surviving(links, requested) == Promote(Expand(links))
  {
    hide ExpandRel, DEFAULT_REL;
    if requested.Some? {
      OnlyRelIs(Promote(Expand(links)), ExpandRel(requested.value));
    }
  }

  // ----- The sidecar and the redirect --------------------------------------

  /** The validation status is one more key at the end, and nothing else; without links there is none. */
  lemma ValidationIsSidecar<V>(anchor: string, links: seq<LinkType>, requested: Option<string>, status: V)
    ensures var without := BuildLinkset<V>(anchor, links, requested, None);
      && !Has(without, STATUS)
      && BuildLinkset(anchor, links, requested, Some(status)) == if links == [] then without
        else without + [(STATUS, Validation(status))]
  {
    hide Surviving, Merge, Put, Group, ListedLinks, AsFields, Get;
    if links == [] {
      GetOne(ANCHOR, Field<V>.Anchor(anchor), STATUS);
      assert ANCHOR != STATUS;
    } else {
      LinksetMeaning<V>(anchor, links, requested, None, STATUS);
      PutNew(BuildLinkset<V>(anchor, links, requested, None), STATUS, Validation(status));
    }
  }

  /**
   * The link a redirect goes to: the first default link, else the first link; none when the response is narrowed to
   * another relation.
   */
  function Preferred(links: seq<LinkType>, requested: Option<string>): Option<LinkType> {
    if links == [] then None
    else if Narrowed(links, requested) && ExpandRel(requested.value) != DEFAULT_REL then None
    else
      var i := FirstDefault(links);
      Some(if i < |links| then links[i] else links[0])
  }

  predicate IsDefault(link: LinkType) {
    ExpandRel(link.rel) == DEFAULT_REL
  }

  function FirstDefault(links: seq<LinkType>): (i: nat)
    ensures i <= |links|
  {
    if links == [] || IsDefault(links[0]) then 0 else 1 + FirstDefault(links[1..])
  }

  lemma {:induction false} FirstDefaultIs(links: seq<LinkType>)
    ensures var i := FirstDefault(links);
      (i < |links| ==> IsDefault(links[i])) && forall j :: 0 <= j < i ==> !IsDefault(links[j])
  {
    hide IsDefault;
    if links != [] && !IsDefault(links[0]) {
      FirstDefaultIs(links[1..]);
    }
  }

  lemma {:induction false} FirstUnder(rels: Rels, rel: string, i: nat)
    requires i < |rels| && rels[i].0 == rel && forall j :: 0 <= j < i ==> rels[j].0 != rel
    ensures EntriesUnder(rels, rel) != [] && EntriesUnder(rels, rel)[0] == EntryOf(rels[i].1)
  {
    hide EntryOf;
    assert ListedLinks(rels)[1..] == ListedLinks(rels[1..]);
    if i > 0 {
      FirstUnder(rels[1..], rel, i - 1);
    }
  }

  lemma {:induction false} FirstOnly(rels: Rels, rel: string, i: nat)
    requires i < |rels| && rels[i].0 == rel && forall j :: 0 <= j < i ==> rels[j].0 != rel
    ensures OnlyRel(rels, rel) != [] && OnlyRel(rels, rel)[0] == rels[i]
  {
    if i > 0 {
      FirstOnly(rels[1..], rel, i - 1);
    }
  }

  /** The first surviving link with the default relation. */
  lemma FirstSurvivingDefault(links: seq<LinkType>, requested: Option<string>)
    requires links != [] && Preferred(links, requested).Some?
    ensures var rels := Surviving(links, requested);
      EntriesUnder(rels, DEFAULT_REL) != []
        && EntriesUnder(rels, DEFAULT_REL)[0] == EntryOf(Preferred(links, requested).value)
  {
    hide ExpandRel, DEFAULT_REL, EntryOf, EntriesUnder;
    var all := Promote(Expand(links));
    var i := FirstDefault(links);
    FirstDefaultIs(links);
    ExpandHasRel(links, DEFAULT_REL);
    assert all[i].0 == DEFAULT_REL && forall j :: 0 <= j < i ==> all[j].0 != DEFAULT_REL;
    if Narrowed(links, requested) {
      FirstOnly(all, DEFAULT_REL, i);
      OnlyRelIs(all, DEFAULT_REL);
      FirstUnder(OnlyRel(all, DEFAULT_REL), DEFAULT_REL, 0);
    } else {
      NotNarrowed(links, requested);
      FirstUnder(all, DEFAULT_REL, i);
    }
  }

  /** Where a redirect goes, said of the links and not of the entry: a link with an empty target counts as none. */
  lemma DefaultHref<V>(anchor: string, links: seq<LinkType>, requested: Option<string>, validation: Option<V>)
    ensures DefaultLinkHref(BuildLinkset(anchor, links, requested, validation)) ==
      match Preferred(links, requested) case Some(link) => NonEmpty(link.href) case None => None
  {
    hide Surviving, Get, ExpandRel, EntriesUnder, DEFAULT_REL, Preferred;
    var entry := BuildLinkset(anchor, links, requested, validation);
    if links == [] {
      NotTheDefault();
      GetOne(ANCHOR, Field<V>.Anchor(anchor), DEFAULT_REL);
      NoLinksNoDefault(requested);
    } else {
      hide BuildLinkset;
      NotTheDefault();
      LinksetMeaning(anchor, links, requested, validation, DEFAULT_REL);
      if Preferred(links, requested).Some? {
        FirstSurvivingDefault(links, requested);
      } else {
        NoDefaultSurvives(links, requested);
      }
    }
  }

  lemma NotTheDefault()
    ensures DEFAULT_REL != ANCHOR && DEFAULT_REL != STATUS
  {
    assert DEFAULT_REL[0] == 'h' && ANCHOR[0] == 'a' && STATUS[0] == 'g';
  }

  lemma NoLinksNoDefault(requested: Option<string>)
    ensures Preferred([], requested) == None
  {
  }

  lemma NoDefaultSurvives(links: seq<LinkType>, requested: Option<string>)
    requires links != [] && Preferred(links, requested).None?
    ensures EntriesUnder(Surviving(links, requested), DEFAULT_REL) == []
  {
    hide ExpandRel, DEFAULT_REL, EntriesUnder, Surviving, Narrowed;
    PromotionAndNarrowing(links, requested);
    NoneUnder(Surviving(links, requested), DEFAULT_REL);
  }
}
