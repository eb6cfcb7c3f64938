/** What canonical URIs promise: every segment printed once and in order, print-then-parse, and a complete invariant. */
module CanonicalProofs {
  import opened Text
  import opened Sorting
  import opened AiTable
  import opened AiTableFacts
  import opened Dict
  import opened Percent
  import opened Scanner
  import opened Url
  import opened Gtin
  import opened Parser
  import opened ParserProofs
  import opened Paths
  import opened Canonical

  // ----- What every parse result satisfies ---------------------------------

  /** Keys of the right kind, each once, and no empty value. */
  ghost predicate GoodDict(d: Dict<string>, kind: Kind) {
    Unique(d) && forall i :: 0 <= i < |d| ==> KindOf(d[i].0) == kind && d[i].1 != ""
  }

  ghost predicate GoodPlaces(r: ParseResult) {
    GoodDict(r.qualifiers, QualifierKind) && GoodDict(r.attributes, AttributeKind)
  }

  ghost predicate WellFormed(r: ParseResult) {
    IsPrimary(r.primaryAi) && r.primaryValue != "" && GoodPlaces(r)
  }

  lemma {:induction false} PutGood(d: Dict<string>, kind: Kind, k: string, v: string)
    requires GoodDict(d, kind) && KindOf(k) == kind && v != ""
    ensures GoodDict(Put(d, k, v), kind)
  {
    hide KindOf;
    PutUnique(d, k, v);
    PutEntries(d, k, v);
  }

  lemma {:induction false} PutEntries(d: Dict<string>, k: string, v: string)
    ensures forall i :: 0 <= i < |Put(d, k, v)| ==> Put(d, k, v)[i] == (k, v) || Put(d, k, v)[i] in d
  {
    if d == [] {
    } else {
      PutEntries(d[1..], k, v);
      forall i | 0 <= i < |Put(d, k, v)| ensures Put(d, k, v)[i] == (k, v) || Put(d, k, v)[i] in d {
        if d[0].0 == k {
          assert i > 0 ==> Put(d, k, v)[i] == d[i];
        } else if i == 0 {
          assert Put(d, k, v)[0] == d[0];
        } else {
          assert Put(d, k, v)[i] == Put(d[1..], k, v)[i - 1];
        }
      }
    }
  }

  lemma {:induction false} ClassifyGood(primarySet: bool, r: ParseResult, segs: seq<Segment>)
    requires GoodPlaces(r) && AllShaped(segs)
    requires primarySet ==> WellFormed(r)
    ensures var (set', r') := ClassifyAll(primarySet, r, segs); GoodPlaces(r') && (set' ==> WellFormed(r'))
    decreases segs
  {
    hide IsPrimary, IsKnown, IsQualifier;
    if segs == [] {
    } else {
      assert SegmentShaped(segs[0]);
      var (set', r') := Classify(primarySet, r, segs[0]);
      if KindOf(segs[0].0) == QualifierKind {
        PutGood(r.qualifiers, QualifierKind, segs[0].0, segs[0].1);
      } else if KindOf(segs[0].0) == AttributeKind {
        PutGood(r.attributes, AttributeKind, segs[0].0, segs[0].1);
      }
      ClassifyGood(set', r', segs[1..]);
    }
  }

  /** Every successful parse gives a well-formed result. */
  lemma ParseWellFormed(uri: string)
    ensures Parse(uri).Parsed? ==> WellFormed(Parse(uri).result)
  {
    hide PathOf, NormaliseAlpha, UrlSplit, FindAll;
    var normal := NormaliseAlpha(PathOf(uri));
    FindAllShaped(normal);
    ClassifyGood(false, Blank(UrlSplit(uri).query), FindAll(normal));
  }

  // ----- The printed keys --------------------------------------------------

  lemma {:induction false} PresentIs(ks: seq<string>, d: Dict<string>)
    ensures forall k :: k in Present(ks, d) <==> k in ks && Has(d, k)
    ensures Distinct(ks) ==> Distinct(Present(ks, d))
  {
    hide Get;
    if ks == [] {
    } else {
      PresentIs(ks[1..], d);
      assert ks == [ks[0]] + ks[1..];
      if Distinct(ks) && Has(d, ks[0]) {
        assert Present(ks, d) == [ks[0]] + Present(ks[1..], d);
        assert ks[0] !in ks[1..];
      }
    }
  }

  lemma {:induction false} UnseenIs(ks: seq<string>, seen: seq<string>)
    ensures forall k :: k in Unseen(ks, seen) <==> k in ks && k !in seen
    ensures StrictlyIncreasing(ks) ==> StrictlyIncreasing(Unseen(ks, seen))
  {
    hide LexLe;
    if ks == [] {
    } else {
      UnseenIs(ks[1..], seen);
      assert ks == [ks[0]] + ks[1..];
      if StrictlyIncreasing(ks) && ks[0] !in seen {
        var rest := Unseen(ks[1..], seen);
        forall j | 0 <= j < |rest| ensures LexLt(ks[0], rest[j]) {
          assert rest[j] in ks[1..];
        }
      }
    }
  }

  /** The ordered pass and the leftover pass partition the qualifier keys. */
  lemma QualifierKeysPartition(r: ParseResult)
    requires Unique(r.qualifiers)
    ensures Distinct(QualifierKeys(r))
    ensures forall k :: k in QualifierKeys(r) <==> Has(r.qualifiers, k)
  {
    hide LexLe, QualifierOrder, Get;
    var order := QualifierOrder(r.primaryAi);
    var ordered := Present(order, r.qualifiers);
    var sorted := SortStrings(Keys(r.qualifiers));
    OrderDistinct(r.primaryAi);
    PresentIs(order, r.qualifiers);
    SortedDistinct(Keys(r.qualifiers));
    UnseenIs(sorted, ordered);
    forall k ensures k in sorted <==> Has(r.qualifiers, k) {
      SortMembers(LexLe, Keys(r.qualifiers), k);
      HasIsKey(r.qualifiers, k);
    }
    var rest := Unseen(sorted, ordered);
    forall i, j | 0 <= i < j < |QualifierKeys(r)| ensures QualifierKeys(r)[i] != QualifierKeys(r)[j] {
      if i < |ordered| <= j {
        assert QualifierKeys(r)[j] == rest[j - |ordered|] && rest[j - |ordered|] in rest;
        assert QualifierKeys(r)[i] == ordered[i] && ordered[i] in ordered;
      }
    }
  }

  lemma AttributeKeysSorted(r: ParseResult)
    requires Unique(r.attributes)
    ensures StrictlyIncreasing(AttributeKeys(r)) && Distinct(AttributeKeys(r))
    ensures forall k :: k in AttributeKeys(r) <==> Has(r.attributes, k)
  {
    hide LexLe, Get;
    SortedDistinct(Keys(r.attributes));
    forall k ensures k in AttributeKeys(r) <==> Has(r.attributes, k) {
      SortMembers(LexLe, Keys(r.attributes), k);
      HasIsKey(r.attributes, k);
    }
  }

  /** The printed segments are the primary key and every qualifier and attribute, each exactly once. */
  lemma EmissionConserves(r: ParseResult)
    requires Unique(r.qualifiers) && Unique(r.attributes)
    ensures multiset(CanonicalSegments(r))
         == multiset{(r.primaryAi, PaddedPrimary(r))} + multiset(r.qualifiers) + multiset(r.attributes)
  {
    hide QualifierKeys, AttributeKeys, Get, PaddedPrimary;
    QualifierKeysPartition(r);
    AttributeKeysSorted(r);
    EntriesPermute(r.qualifiers, QualifierKeys(r), "");
    EntriesPermute(r.attributes, AttributeKeys(r), "");
  }

  /** `a` comes before `b` in a list. */
  ghost predicate ListedBefore(ks: seq<string>, a: string, b: string) {
    exists i, j :: 0 <= i < j < |ks| && ks[i] == a && ks[j] == b
  }

  /** The order of two qualifiers under a primary key: listed ones first, as listed; the others by string order. */
  ghost predicate QualifierBefore(primary: string, a: string, b: string) {
    var order := QualifierOrder(primary);
    if b in order then ListedBefore(order, a, b)
    else a in order || LexLt(a, b)
  }

  lemma {:induction false} PresentKeepsOrder(ks: seq<string>, d: Dict<string>, i: nat, j: nat)
    requires i < j < |Present(ks, d)|
    ensures ListedBefore(ks, Present(ks, d)[i], Present(ks, d)[j])
  {
    hide Get;
    var rest := Present(ks[1..], d);
    PresentIs(ks[1..], d);
    if Has(d, ks[0]) && i == 0 {
      assert Present(ks, d)[j] == rest[j - 1] && rest[j - 1] in rest;
      var m :| 0 <= m < |ks[1..]| && ks[1..][m] == rest[j - 1];
      assert ks[0] == Present(ks, d)[0] && ks[m + 1] == Present(ks, d)[j];
    } else {
      var o := if Has(d, ks[0]) then 1 else 0;
      PresentKeepsOrder(ks[1..], d, i - o, j - o);
      var a, b := rest[i - o], rest[j - o];
      var m, n :| 0 <= m < n < |ks[1..]| && ks[1..][m] == a && ks[1..][n] == b;
      assert ks[m + 1] == a && ks[n + 1] == b;
    }
  }

  /**
   * The printed segments: primary first, qualifiers in the standard's order and then by string order, attributes by
   * string order.
   */
  lemma EmissionOrders(r: ParseResult)
    requires Unique(r.qualifiers) && Unique(r.attributes)
    ensures |CanonicalSegments(r)| == 1 + |r.qualifiers| + |r.attributes|
    ensures CanonicalSegments(r)[0] == (r.primaryAi, PaddedPrimary(r))
    ensures forall i, j :: 1 <= i < j <= |r.qualifiers| ==>
      QualifierBefore(r.primaryAi, CanonicalSegments(r)[i].0, CanonicalSegments(r)[j].0)
    ensures forall i, j :: |r.qualifiers| < i < j < |CanonicalSegments(r)| ==>
      LexLt(CanonicalSegments(r)[i].0, CanonicalSegments(r)[j].0)
  {
    hide LexLe, QualifierBefore, QualifierKeys, AttributeKeys, CanonicalSegments, Unique;
    CanonicalPlaces(r);
    AttributeKeysSorted(r);
    var s := CanonicalSegments(r);
    forall i, j | 1 <= i < j <= |r.qualifiers| ensures QualifierBefore(r.primaryAi, s[i].0, s[j].0) {
      QualifierKeysOrdered(r, i - 1, j - 1);
    }
    var o := 1 + |r.qualifiers|;
    forall i, j | |r.qualifiers| < i < j < |s| ensures LexLt(s[i].0, s[j].0) {
      assert s[i].0 == AttributeKeys(r)[i - o] && s[j].0 == AttributeKeys(r)[j - o];
    }
  }

  /** Which key each printed segment has. */
  lemma CanonicalPlaces(r: ParseResult)
    requires Unique(r.qualifiers) && Unique(r.attributes)
    ensures |QualifierKeys(r)| == |r.qualifiers| && |AttributeKeys(r)| == |r.attributes|
    ensures |CanonicalSegments(r)| == 1 + |r.qualifiers| + |r.attributes|
    ensures CanonicalSegments(r)[0] == (r.primaryAi, PaddedPrimary(r))
    ensures forall i :: 1 <= i <= |r.qualifiers| ==> CanonicalSegments(r)[i].0 == QualifierKeys(r)[i - 1]
    ensures forall i :: |r.qualifiers| < i < |CanonicalSegments(r)| ==>
      CanonicalSegments(r)[i].0 == AttributeKeys(r)[i - 1 - |r.qualifiers|]
  {
    hide QualifierKeys, AttributeKeys, Get, PaddedPrimary;
    QualifierKeysPartition(r);
    AttributeKeysSorted(r);
    AsManyKeys(r.qualifiers, QualifierKeys(r));
    AsManyKeys(r.attributes, AttributeKeys(r));
  }

  lemma AsManyKeys(d: Dict<string>, ks: seq<string>)
    requires Unique(d) && Distinct(ks) && forall k :: k in ks <==> Has(d, k)
    ensures |ks| == |d|
  {
    EntriesPermute(d, ks, "");
    assert |multiset(Entries(d, ks))| == |multiset(d)|;
  }

  lemma QualifierKeysOrdered(r: ParseResult, i: nat, j: nat)
    requires Unique(r.qualifiers) && i < j < |QualifierKeys(r)|
    ensures QualifierBefore(r.primaryAi, QualifierKeys(r)[i], QualifierKeys(r)[j])
  {
    hide LexLe, QualifierOrder, Get;
    var order := QualifierOrder(r.primaryAi);
    var ordered := Present(order, r.qualifiers);
    var sorted := SortStrings(Keys(r.qualifiers));
    var rest := Unseen(sorted, ordered);
    PresentIs(order, r.qualifiers);
    SortedDistinct(Keys(r.qualifiers));
    UnseenIs(sorted, ordered);
    var ks := QualifierKeys(r);
    if j < |ordered| {
      PresentKeepsOrder(order, r.qualifiers, i, j);
      assert ordered[j] in ordered;
    } else {
      var b := rest[j - |ordered|];
      assert b in rest && b in sorted && b !in ordered;
      SortMembers(LexLe, Keys(r.qualifiers), b);
      HasIsKey(r.qualifiers, b);
      assert b !in order;
      if i < |ordered| {
        assert ordered[i] in ordered;
      }
    }
  }

  /** The place of a qualifier under a primary key, as the standard lists them; 3 for those it does not list. */
  function Rank(primary: string, ai: string): nat {
    if primary in ["01", "8006"] then (if ai == "22" then 0 else if ai == "10" then 1 else if ai == "21" then 2 else 3)
    else if primary in ["414", "417"] then (if ai == "254" then 0 else 3)
    else if primary == "8003" then (if ai == "21" then 0 else 3)
    else if primary == "8010" then (if ai == "8011" then 0 else 3)
    else 3
  }

  lemma {:induction false} RanksApart()
    ensures "22" != "10" && "22" != "21" && "10" != "21"
  {
    assert "22"[0] == '2' && "10"[0] == '1' && "22"[1] == '2' && "21"[1] == '1';
  }

  lemma {:induction false} BeforeByRank(primary: string, a: string, b: string)
    requires QualifierBefore(primary, a, b)
    ensures Rank(primary, a) < Rank(primary, b) || (Rank(primary, a) == Rank(primary, b) == 3 && LexLt(a, b))
  {
    RanksApart();
    hide LexLe;
  }

  /** The order of the printed qualifiers, rank by rank; those without a rank of their own come last, as text. */
  lemma {:induction false} QualifiersRanked(r: ParseResult, i: nat, j: nat)
    requires Unique(r.qualifiers) && Unique(r.attributes) && 1 <= i < j <= |r.qualifiers|
    ensures |CanonicalSegments(r)| > j
    ensures var a, b := CanonicalSegments(r)[i].0, CanonicalSegments(r)[j].0;
      || Rank(r.primaryAi, a) < Rank(r.primaryAi, b)
      || (Rank(r.primaryAi, a) == Rank(r.primaryAi, b) == 3 && LexLt(a, b))
  {
    hide LexLe, CanonicalSegments, QualifierBefore, Rank;
    EmissionOrders(r);
    BeforeByRank(r.primaryAi, CanonicalSegments(r)[i].0, CanonicalSegments(r)[j].0);
  }

  // ----- Print, then parse -------------------------------------------------

  /** What parsing the canonical URI gives: the same keys in canonical order, every value quoted, nothing else. */
  function Reprinted(r: ParseResult): ParseResult {
    ParseResult(
      r.primaryAi, Quote(PaddedPrimary(r)),
      QuoteSegments(Entries(r.qualifiers, QualifierKeys(r))),
      QuoteSegments(Entries(r.attributes, AttributeKeys(r))),
      [], None, [])
  }

  lemma {:induction false} OfKindAll(segs: seq<Segment>, kind: Kind, wanted: Kind)
    requires forall i :: 0 <= i < |segs| ==> KindOf(segs[i].0) == kind
    ensures OfKind(segs, wanted) == if kind == wanted then segs else []
  {
    hide KindOf;
    if segs == [] {
    } else {
      OfKindAll(segs[1..], kind, wanted);
      assert segs == [segs[0]] + segs[1..];
    }
  }

  lemma NextKeyNew(d: Dict<string>, segs: seq<Segment>)
    requires Unique(d + segs) && segs != []
    ensures !Has(d, segs[0].0)
  {
    HasIsKey(d, segs[0].0);
    assert Keys(d + segs)[|d|] == segs[0].0;
    assert forall i :: 0 <= i < |d| ==> Keys(d + segs)[i] == Keys(d)[i];
  }

  /** Assigning distinct new keys one after the other lists them in that order. */
  lemma {:induction false} PutAllNew(d: Dict<string>, segs: seq<Segment>)
    requires Unique(d + segs)
    ensures PutAll(d, segs) == d + segs
    decreases segs
  {
    if segs == [] {
    } else {
      NextKeyNew(d, segs);
      PutNew(d, segs[0].0, segs[0].1);
      assert (d + [segs[0]]) + segs[1..] == d + segs;
      PutAllNew(d + [segs[0]], segs[1..]);
    }
  }

  lemma QuotedKeys(d: Dict<string>, ks: seq<string>, kind: Kind)
    requires GoodDict(d, kind) && Distinct(ks) && forall k :: k in ks <==> Has(d, k)
    ensures var q := QuoteSegments(Entries(d, ks));
      Unique(q) && forall i :: 0 <= i < |q| ==> KindOf(q[i].0) == kind && q[i].1 != "" && AllEncoded(q[i].1)
  {
    hide KindOf, Get, Quote, AllEncoded;
    var q := QuoteSegments(Entries(d, ks));
    forall i | 0 <= i < |q| ensures KindOf(q[i].0) == kind && q[i].1 != "" && AllEncoded(q[i].1) {
      assert ks[i] in ks;
      GoodValue(d, kind, ks[i]);
      QuoteEncoded(Value(d, ks[i]));
    }
    SameKeysUnique(q, ks);
  }

  lemma SameKeysUnique(d: Dict<string>, ks: seq<string>)
    requires Distinct(ks) && |d| == |ks| && forall i :: 0 <= i < |d| ==> d[i].0 == ks[i]
    ensures Unique(d)
  {
  }

  lemma GoodValue(d: Dict<string>, kind: Kind, k: string)
    requires GoodDict(d, kind) && Has(d, k)
    ensures KindOf(k) == kind && Value(d, k) != ""
  {
    hide KindOf, Get, Unique;
    FoundAt(d, k);
    var j :| 0 <= j < |d| && d[j] == (k, Value(d, k));
  }

  lemma PrimaryGood(r: ParseResult)
    requires WellFormed(r)
    ensures PaddedPrimary(r) != "" && Quote(PaddedPrimary(r)) != "" && AllEncoded(Quote(PaddedPrimary(r)))
  {
    PadIdempotent(r.primaryValue);
    QuoteEncoded(PaddedPrimary(r));
  }

  /** Classifying the canonical segments gives the reprinted result. */
  lemma ClassifyReprinted(r: ParseResult)
    requires WellFormed(r)
    ensures ClassifyAll(false, Blank(""), QuoteSegments(CanonicalSegments(r))) == (true, Reprinted(r))
  {
    hide KindOf, IsPrimary, Get, QualifierKeys, AttributeKeys, PaddedPrimary, Quote;
    var qs, ats := Reprinted(r).qualifiers, Reprinted(r).attributes;
    var first := [(r.primaryAi, Quote(PaddedPrimary(r)))];
    var segs := first + (qs + ats);
    CanonicalInThree(r);
    QualifierKeysPartition(r);
    AttributeKeysSorted(r);
    QuotedKeys(r.qualifiers, QualifierKeys(r), QualifierKind);
    QuotedKeys(r.attributes, AttributeKeys(r), AttributeKind);
    BlankQuery();
    ClassifyMeaning(Blank(""), segs);
    assert FirstPrimary(segs) == 0 && Others(segs) == qs + ats;
    SortedIntoPlaces(qs, ats);
  }

  lemma CanonicalInThree(r: ParseResult)
    ensures QuoteSegments(CanonicalSegments(r))
         == [(r.primaryAi, Quote(PaddedPrimary(r)))] + (Reprinted(r).qualifiers + Reprinted(r).attributes)
  {
    hide QualifierKeys, AttributeKeys, PaddedPrimary, Quote;
    var first := [(r.primaryAi, PaddedPrimary(r))];
    var qs, ats := Entries(r.qualifiers, QualifierKeys(r)), Entries(r.attributes, AttributeKeys(r));
    Concat3(first, qs, ats);
    QuoteAppend(first, qs + ats);
    QuoteAppend(qs, ats);
    assert QuoteSegments(first) == [(r.primaryAi, Quote(PaddedPrimary(r)))];
  }

  lemma {:induction false} SortedIntoPlaces(qs: seq<Segment>, ats: seq<Segment>)
    requires Unique(qs) && forall i :: 0 <= i < |qs| ==> KindOf(qs[i].0) == QualifierKind
    requires Unique(ats) && forall i :: 0 <= i < |ats| ==> KindOf(ats[i].0) == AttributeKind
    ensures OfKind(qs + ats, QualifierKind) == qs && OfKind(qs + ats, AttributeKind) == ats
      && OfKind(qs + ats, UnknownKind) == []
    ensures PutAll([], qs) == qs && PutAll([], ats) == ats
  {
    hide KindOf, Keys;
    OfKindAppend(qs, ats, QualifierKind);
    OfKindAppend(qs, ats, AttributeKind);
    OfKindAppend(qs, ats, UnknownKind);
    OfKindAll(qs, QualifierKind, QualifierKind);
    OfKindAll(qs, QualifierKind, AttributeKind);
    OfKindAll(qs, QualifierKind, UnknownKind);
    OfKindAll(ats, AttributeKind, QualifierKind);
    OfKindAll(ats, AttributeKind, AttributeKind);
    OfKindAll(ats, AttributeKind, UnknownKind);
    assert [] + qs == qs && [] + ats == ats;
    PutAllNew([], qs);
    PutAllNew([], ats);
  }

  lemma BlankQuery()
    ensures Blank("") == ParseResult("", "", [], [], [], None, [])
  {
    assert Split("", '&') == [""];
    assert Fields([""]) == [] + Fields([]);
    assert Fields([]) == [];
    assert ParseQsl("") == [];
  }

  lemma EncodedInSegment(s: string)
    requires AllEncoded(s)
    ensures InSegment(s) && forall i :: 0 <= i < |s| ==> ValueChar(s[i])
  {
  }

  /** The canonical segments, quoted, are well shaped and need no alpha rewriting. */
  lemma CanonicalShaped(r: ParseResult)
    requires WellFormed(r)
    ensures var q := QuoteSegments(CanonicalSegments(r));
      && q != [] && AllShaped(q) && AlphaSegments(q) == q
      && forall i :: 0 <= i < |q| ==> q[i].0 != "" && InSegment(q[i].0) && InSegment(q[i].1)
  {
    hide KindOf, IsPrimary, Get, QualifierKeys, AttributeKeys, PaddedPrimary, Quote, AlphaToken, AllEncoded, AiShaped,
      InSegment, ValueChar, Spells;
    var q := QuoteSegments(CanonicalSegments(r));
    CanonicalInThree(r);
    QualifierKeysPartition(r);
    AttributeKeysSorted(r);
    QuotedKeys(r.qualifiers, QualifierKeys(r), QualifierKind);
    QuotedKeys(r.attributes, AttributeKeys(r), AttributeKind);
    PrimaryGood(r);
    KindKnown(r.primaryAi);
    forall i | 0 <= i < |q|
      ensures SegmentShaped(q[i]) && AlphaToken(q[i].0) == q[i].0
      ensures q[i].0 != "" && InSegment(q[i].0) && InSegment(q[i].1)
    {
      KindKnown(q[i].0);
      var n := |Reprinted(r).qualifiers|;
      if i == 0 {
        assert q[i].1 == Quote(PaddedPrimary(r));
      } else if i <= n {
        assert q[i] == Reprinted(r).qualifiers[i - 1];
      } else {
        assert q[i] == Reprinted(r).attributes[i - 1 - n];
      }
      KnownAi(q[i].0);
      SpellsItself(q[i].0);
      SpelledToken(q[i].0, q[i].0);
      AiInSegment(q[i].0);
      EncodedInSegment(q[i].1);
    }
    AlphaIs(q, q);
  }

  lemma KindKnown(ai: string)
    ensures IsPrimary(ai) || KindOf(ai) != UnknownKind ==> IsKnown(ai)
  {
    hide IsPrimary, IsKnown, IsQualifier;
    if IsPrimary(ai) { PrimaryAi(ai); }
  }

  /**
   * Print, then parse: the canonical URI of a well-formed result parses to the same primary AI, the padded
   * primary value, and the same qualifiers and attributes in canonical order, each value percent-encoded.
   * No unknown AI and no query remains.
   */
  lemma PrintThenParse(r: ParseResult, host: Option<string>)
    requires WellFormed(r) && (host.Some? ==> FreeOf(host.value, "/?#"))
    requires |Origin(host) + CanonicalPath(r)| <= MAX_URI_LENGTH
    ensures Parse(Origin(host) + CanonicalPath(r)) == Parsed(Reprinted(r))
  {
    hide WellFormed, ClassifyAll, Reprinted, CanonicalSegments, AllShaped, AlphaSegments, InSegment, Render, Parse,
      UrlSplit, FindAll, SuffixQuery, FreeOf;
    var q := QuoteSegments(CanonicalSegments(r));
    CanonicalShaped(r);
    assert Render(q) + "" == Render(q);
    ParseRendered(host, q, "");
    assert SuffixQuery("") == "" by { EmptySuffix(); }
    FindAllRender(q);
    ClassifyReprinted(r);
  }

  function QuoteOption(v: Option<string>): Option<string> {
    match v case Some(x) => Some(Quote(x)) case None => None
  }

  lemma {:induction false} GetQuoted(d: Dict<string>, k: string)
    ensures Get(QuoteSegments(d), k) == QuoteOption(Get(d, k))
  {
    hide Quote;
    if d == [] {
    } else {
      GetQuoted(d[1..], k);
      assert QuoteSegments(d)[1..] == QuoteSegments(d[1..]);
    }
  }

  /** Reading a value back: each key has the encoding of its value, and decoding gives the value itself. */
  lemma {:induction false} ReprintedValues(r: ParseResult, k: string)
    requires Unique(r.qualifiers) && Unique(r.attributes)
    ensures Get(Reprinted(r).qualifiers, k) == QuoteOption(Get(r.qualifiers, k))
    ensures Get(Reprinted(r).attributes, k) == QuoteOption(Get(r.attributes, k))
    ensures Has(r.qualifiers, k) ==> Unquote(Value(Reprinted(r).qualifiers, k)) == Value(r.qualifiers, k)
    ensures Has(r.attributes, k) ==> Unquote(Value(Reprinted(r).attributes, k)) == Value(r.attributes, k)
    ensures Unquote(Reprinted(r).primaryValue) == PaddedPrimary(r)
  {
    hide Quote, Unquote, Get, QualifierKeys, AttributeKeys, PaddedPrimary;
    QualifierKeysPartition(r);
    AttributeKeysSorted(r);
    GetEntries(r.qualifiers, QualifierKeys(r), "", k);
    GetEntries(r.attributes, AttributeKeys(r), "", k);
    GetQuoted(Entries(r.qualifiers, QualifierKeys(r)), k);
    GetQuoted(Entries(r.attributes, AttributeKeys(r)), k);
    if Has(r.qualifiers, k) { UnquoteQuote(Value(r.qualifiers, k)); }
    if Has(r.attributes, k) { UnquoteQuote(Value(r.attributes, k)); }
    UnquoteQuote(PaddedPrimary(r));
  }

  // ----- A complete invariant ----------------------------------------------

  /** Two results identify the same thing: same key, same padded value, same qualifiers and attributes as maps. */
  ghost predicate Agree(a: ParseResult, b: ParseResult) {
    && a.primaryAi == b.primaryAi
    && PaddedPrimary(a) == PaddedPrimary(b)
    && SameMap(a.qualifiers, b.qualifiers)
    && SameMap(a.attributes, b.attributes)
  }

  lemma {:induction false} PresentSame(ks: seq<string>, d: Dict<string>, e: Dict<string>)
    requires SameMap(d, e)
    ensures Present(ks, d) == Present(ks, e)
  {
    hide Get;
    if ks == [] {
    } else {
      assert Get(d, ks[0]) == Get(e, ks[0]);
      PresentSame(ks[1..], d, e);
    }
  }

  lemma EntriesSame(d: Dict<string>, e: Dict<string>, ks: seq<string>)
    requires SameMap(d, e)
    ensures Entries(d, ks) == Entries(e, ks)
  {
    hide Get;
    forall i | 0 <= i < |ks| ensures Entries(d, ks)[i] == Entries(e, ks)[i] {
      assert Get(d, ks[i]) == Get(e, ks[i]);
    }
  }

  lemma AgreeingPrintAlike(a: ParseResult, b: ParseResult)
    requires Agree(a, b) && GoodPlaces(a) && GoodPlaces(b)
    ensures CanonicalSegments(a) == CanonicalSegments(b)
  {
    hide SameMap, PaddedPrimary, Get, KindOf, QualifierOrder, Unseen;
    SameKeysSorted(a.qualifiers, b.qualifiers);
    SameKeysSorted(a.attributes, b.attributes);
    PresentSame(QualifierOrder(a.primaryAi), a.qualifiers, b.qualifiers);
    EntriesSame(a.qualifiers, b.qualifiers, QualifierKeys(a));
    EntriesSame(a.attributes, b.attributes, AttributeKeys(a));
  }

  lemma ReprintedDetermines(a: ParseResult, b: ParseResult)
    requires GoodPlaces(a) && GoodPlaces(b) && Reprinted(a) == Reprinted(b)
    ensures Agree(a, b)
  {
    hide Quote, Get, QualifierKeys, AttributeKeys, PaddedPrimary, KindOf, Reprinted;
    forall k ensures Get(a.qualifiers, k) == Get(b.qualifiers, k) && Get(a.attributes, k) == Get(b.attributes, k) {
      ReprintedValues(a, k);
      ReprintedValues(b, k);
      QuoteOptionInjective(Get(a.qualifiers, k), Get(b.qualifiers, k));
      QuoteOptionInjective(Get(a.attributes, k), Get(b.attributes, k));
    }
    ReprintedValues(a, "");
    ReprintedValues(b, "");
    assert a.primaryAi == Reprinted(a).primaryAi
      && b.primaryAi == Reprinted(b).primaryAi by { ReprintedKey(a); ReprintedKey(b); }
  }

  lemma ReprintedKey(r: ParseResult)
    ensures Reprinted(r).primaryAi == r.primaryAi
  {
  }

  lemma QuoteOptionInjective(a: Option<string>, b: Option<string>)
    requires QuoteOption(a) == QuoteOption(b)
    ensures a == b
  {
    hide Quote;
    if a.Some? { QuoteInjective(a.value, b.value); }
  }

  lemma SamePathSameReprint(a: ParseResult, b: ParseResult)
    requires WellFormed(a) && WellFormed(b) && CanonicalPath(a) == CanonicalPath(b)
    ensures Reprinted(a) == Reprinted(b)
  {
    hide WellFormed, ClassifyAll, Reprinted, CanonicalSegments, AllShaped, AlphaSegments, InSegment, Render, FindAll,
      Blank;
    CanonicalShaped(a);
    CanonicalShaped(b);
    FindAllRender(QuoteSegments(CanonicalSegments(a)));
    FindAllRender(QuoteSegments(CanonicalSegments(b)));
    ClassifyReprinted(a);
    ClassifyReprinted(b);
  }

  /**
   * The canonical URI is a complete invariant: two results have the same one, under any host, exactly when they
   * agree.
   */
  lemma CanonicalComplete(a: ParseResult, b: ParseResult, host: string)
    requires WellFormed(a) && WellFormed(b)
    ensures Canonicalise(a, host) == Canonicalise(b, host) <==> Agree(a, b)
  {
    hide CanonicalSegments, Render, Agree, KindOf, IsPrimary, Unique, Reprinted, Origin;
    KindKnown(a.primaryAi);
    KindKnown(b.primaryAi);
    KnownAi(a.primaryAi);
    KnownAi(b.primaryAi);
    if Canonicalise(a, host) == Canonicalise(b, host) {
      var o := Origin(Some(host));
      assert (o + CanonicalPath(a))[|o|..] == CanonicalPath(a);
      assert (o + CanonicalPath(b))[|o|..] == CanonicalPath(b);
      SamePathSameReprint(a, b);
      ReprintedDetermines(a, b);
    }
    if Agree(a, b) {
      AgreeingPrintAlike(a, b);
      assert a.primaryAi == b.primaryAi by { AgreeKey(a, b); }
    }
  }

  lemma AgreeKey(a: ParseResult, b: ParseResult)
    requires Agree(a, b)
    ensures a.primaryAi == b.primaryAi
  {
  }

  /** The same, for URIs: two URIs that parse have one canonical form exactly when they identify the same thing. */
  lemma CanonicalFormOfUris(u: string, v: string, host: string)
    ensures match (Parse(u), Parse(v))
      case (Parsed(a), Parsed(b)) => Canonicalise(a, host) == Canonicalise(b, host) <==> Agree(a, b)
      case _ => true
  {
    hide Parse, WellFormed, Canonicalise, Agree;
    if Parse(u).Parsed? && Parse(v).Parsed? {
      ParseWellFormed(u);
      ParseWellFormed(v);
      CanonicalComplete(Parse(u).result, Parse(v).result, host);
    }
  }

  lemma {:induction false} PlacedWellFormed(segs: seq<Segment>, query: string)
    requires FirstPrimary(segs) < |segs| && forall i :: 0 <= i < |segs| ==> PathSegment(segs[i])
    ensures WellFormed(Placed(segs, query))
  {
    hide IsPrimary, KindOf, SegmentShaped, InSegment, ParseQs, Others, WithSegments, FirstPrimary, ClassifyAll;
    BlankPlaces(query);
    ClassifyGood(false, Blank(query), segs);
    ClassifyMeaning(Blank(query), segs);
  }

  lemma BlankPlaces(query: string)
    ensures GoodPlaces(Blank(query))
  {
    hide ParseQs;
  }

  /** The key of a path as it is printed. */
  function PrintedKey(segs: seq<Segment>): Segment
    requires FirstPrimary(segs) < |segs|
  {
    var (ai, value) := segs[FirstPrimary(segs)];
    (ai, if ai == "01" then PadGtin(value) else value)
  }

  lemma {:induction false} PrintedKeyOfPlaced(segs: seq<Segment>, query: string)
    requires FirstPrimary(segs) < |segs|
    ensures var r := Placed(segs, query); PrintedKey(segs) == (r.primaryAi, PaddedPrimary(r))
  {
    hide FirstPrimary, Others, PadGtin, ParseQs, PutAll, OfKind;
  }

  /**
   * What the canonical URI shows of a path, AIs repeated or not: any two paths with a primary key have one canonical
   * URI exactly when the first primary AI, its padded value, and the last value of every other known AI agree. Order,
   * earlier values, unknown AIs, origin, query and fragment do not show.
   */
  lemma {:induction false} CanonicalFormOfPaths(
    canonical: string, host: Option<string>, host': Option<string>, segs: seq<Segment>, segs': seq<Segment>,
    suffix: string, suffix': string)
    requires IsPathUri(host, segs, suffix) && FirstPrimary(segs) < |segs|
    requires IsPathUri(host', segs', suffix') && FirstPrimary(segs') < |segs'|
    ensures var a, b := Parse(PathUri(host, segs, suffix)), Parse(PathUri(host', segs', suffix'));
      && a.Parsed? && b.Parsed?
      && (Canonicalise(a.result, canonical) == Canonicalise(b.result, canonical)
          <==> PrintedKey(segs) == PrintedKey(segs') && SameLastValues(segs, segs'))
  {
    var q, q' := SuffixQuery(suffix), SuffixQuery(suffix');
    hide Parse, SuffixQuery, WellFormed, PathUri, FreeOf, PathSegment, Canonicalise, IsPrimary, FirstPrimary, SameMap,
      PadGtin, SameLastValues, Placed;
    PlacedWellFormed(segs, q);
    PlacedWellFormed(segs', q');
    PrintedKeyOfPlaced(segs, q);
    PrintedKeyOfPlaced(segs', q');
    ParsePlaced(host, segs, suffix);
    ParsePlaced(host', segs', suffix');
    SameMapsOfPlaced(segs, segs', q, q');
    CanonicalComplete(Placed(segs, q), Placed(segs', q'), canonical);
  }

  /** Permuted paths have one canonical URI: the order of the segments does not show in it. */
  lemma CanonicalIgnoresSegmentOrder(
    canonical: string, host: Option<string>, segs: seq<Segment>, segs': seq<Segment>, suffix: string)
    requires IsPathUri(host, segs, suffix)
    requires multiset(segs) == multiset(segs') && DistinctAis(segs) && OnePrimary(segs)
    ensures var a, b := Parse(PathUri(host, segs, suffix)), Parse(PathUri(host, segs', suffix));
      a.Parsed? && b.Parsed? && Canonicalise(a.result, canonical) == Canonicalise(b.result, canonical)
  {
    hide Parse, IsPathUri, PathUri, Placed, SuffixQuery, DistinctAis, Canonicalise, IsPrimary, FirstPrimary,
      SameLastValues, PadGtin;
    PermutedParse(host, segs, segs', suffix);
    CanonicalFormOfPaths(canonical, host, host, segs, segs', suffix, suffix);
  }

  // ----- Idempotence -------------------------------------------------------

  /** Every value has only unreserved characters. */
  ghost predicate Unreservedly(d: Dict<string>) {
    forall i :: 0 <= i < |d| ==> AllUnreserved(d[i].1)
  }

  lemma ReprintedGood(r: ParseResult)
    requires WellFormed(r)
    ensures WellFormed(Reprinted(r))
  {
    hide ClassifyAll, Reprinted, CanonicalSegments, AlphaSegments, InSegment, KindOf, IsPrimary, SegmentShaped;
    CanonicalShaped(r);
    ClassifyReprinted(r);
    BlankQuery();
    assert GoodPlaces(Blank(""));
    ClassifyGood(false, Blank(""), QuoteSegments(CanonicalSegments(r)));
  }

  lemma {:induction false} PadQuote(p: string)
    requires PadGtin(p) == p
    ensures PadGtin(Quote(p)) == p <==> AllUnreserved(p)
  {
    hide PadGtin, Quote;
    QuoteFixed(p);
    if !AllUnreserved(p) {
      ReservedShows(p);
      PadNotDigits(Quote(p));
    }
  }

  lemma PadNotDigits(s: string)
    requires '%' in s
    ensures PadGtin(s) == s
  {
  }

  /** A dict and its quoted form are the same map exactly when no value needs encoding. */
  lemma {:induction false} UnreservedValues(d: Dict<string>, e: Dict<string>)
    requires Unique(d) && forall k :: Get(e, k) == QuoteOption(Get(d, k))
    ensures SameMap(e, d) <==> Unreservedly(d)
  {
    hide Quote, Get, AllUnreserved;
    if SameMap(e, d) {
      forall i | 0 <= i < |d| ensures AllUnreserved(d[i].1) {
        GetAt(d, i);
        assert Get(e, d[i].0) == Get(d, d[i].0);
        QuoteFixed(d[i].1);
      }
    }
    if Unreservedly(d) {
      forall k ensures Get(e, k) == Get(d, k) {
        assert Get(e, k) == QuoteOption(Get(d, k));
        if Has(d, k) {
          FoundAt(d, k);
          var i :| 0 <= i < |d| && d[i] == (k, Value(d, k));
          QuoteFixed(d[i].1);
        }
      }
    }
  }

  lemma ReprintedPadded(r: ParseResult)
    ensures PaddedPrimary(Reprinted(r)) == PaddedPrimary(r) <==> AllUnreserved(PaddedPrimary(r))
  {
    hide Quote, AllUnreserved, PadGtin, QualifierKeys, AttributeKeys;
    if r.primaryAi == "01" {
      PadIdempotent(r.primaryValue);
      PadQuote(PaddedPrimary(r));
    } else {
      QuoteFixed(r.primaryValue);
    }
  }

  /**
   * Canonicalising is idempotent exactly on results whose printed values need no encoding: `parse` never
   * decodes, so an encoded value is encoded again.
   */
  lemma CanonicalIdempotent(r: ParseResult, host: string)
    requires WellFormed(r) && FreeOf(host, "/?#")
    requires |Canonicalise(r, host).GetOr("")| <= MAX_URI_LENGTH
    ensures var uri := Canonicalise(r, host).GetOr("");
      && Parse(uri).Parsed?
      && (Canonicalise(Parse(uri).result, host) == Some(uri)
          <==> AllUnreserved(PaddedPrimary(r)) && Unreservedly(r.qualifiers) && Unreservedly(r.attributes))
  {
    hide KindOf, IsPrimary, Quote, Get, Reprinted, AllUnreserved, PaddedPrimary, CanonicalPath, Parse, FreeOf,
      Unreservedly, Origin;
    KindKnown(r.primaryAi);
    KnownAi(r.primaryAi);
    PrintThenParse(r, Some(host));
    ReprintedGood(r);
    CanonicalComplete(Reprinted(r), r, host);
    ReprintedPadded(r);
    ReprintedKey(r);
    forall k
      ensures Get(Reprinted(r).qualifiers, k) == QuoteOption(Get(r.qualifiers, k))
      ensures Get(Reprinted(r).attributes, k) == QuoteOption(Get(r.attributes, k))
    {
      ReprintedValues(r, k);
    }
    UnreservedValues(r.qualifiers, Reprinted(r).qualifiers);
    UnreservedValues(r.attributes, Reprinted(r).attributes);
  }
}
