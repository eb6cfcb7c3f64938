/** URIs on which a promise fails, one for each condition that is needed: what the code does there. */
module Witnesses {
  import opened Text
  import opened Sorting
  import opened AiTable
  import opened AiTableFacts
  import opened Dict
  import opened Percent
  import opened Scanner
  import opened Url
  import opened Gtin
  import opened Parser
  import opened ParserProofs
  import opened Paths
  import opened Canonical
  import opened CanonicalProofs
  import opened NumericOrder
  import opened Template
  import opened Router
  import opened RouterProofs

  const GTIN := "09780345418913"
  const KEY: Segment := ("01", GTIN)

  /** What a path of a GTIN and other segments parses to. */
  function WithGtin(qualifiers: Dict<string>, attributes: Dict<string>): ParseResult {
    ParseResult("01", GTIN, qualifiers, attributes, [], None, [])
  }

  lemma KeyIsPath()
    ensures PathSegment(KEY)
  {
  }

  lemma KindsOfRows()
    ensures IsPrimary("01") && !IsPrimary("10") && !IsPrimary("21") && !IsPrimary("240") && !IsPrimary("90")
    ensures KindOf("10") == KindOf("21") == QualifierKind && KindOf("240") == KindOf("90") == AttributeKind
    ensures NameOf("01") == "gtin" && NameOf("10") == "lot" && NameOf("21") == "ser"
  {
    SomeRows();
    SomePrimaries();
    hide SpecOf, IsPrimary;
  }

  /** A GTIN followed by segments of one kind, each AI once. */
  lemma {:induction false} PlacedAfterKey(rest: seq<Segment>, kind: Kind)
    requires kind != UnknownKind && Unique(rest)
    requires forall i :: 0 <= i < |rest| ==> KindOf(rest[i].0) == kind
    ensures FirstPrimary([KEY] + rest) == 0
    ensures Placed([KEY] + rest, "") == if kind == QualifierKind then WithGtin(rest, []) else WithGtin([], rest)
  {
    KindsOfRows();
    hide KindOf, IsPrimary, GTIN;
    var segs := [KEY] + rest;
    assert FirstPrimary(segs) == 0;
    assert Others(segs) == rest by { assert segs[..0] + segs[1..] == rest; }
    BlankQuery();
    OfKindAll(rest, kind, QualifierKind);
    OfKindAll(rest, kind, AttributeKind);
    OfKindAll(rest, kind, UnknownKind);
    PutAllNew([], rest);
    assert [] + rest == rest;
  }

  lemma {:induction false} UriAfterKey(host: Option<string>, rest: seq<Segment>)
    requires host.Some? ==> FreeOf(host.value, "/?#") && |host.value| <= 10
    requires |Render(rest)| <= 100 && forall i :: 0 <= i < |rest| ==> PathSegment(rest[i])
    ensures IsPathUri(host, [KEY] + rest, "")
    ensures PathUri(host, [KEY] + rest, "") == Origin(host) + ("/01/" + GTIN + Render(rest))
  {
    KeyIsPath();
    RenderAfterKey(rest);
    assert |GTIN| == 14 && |Origin(host)| <= 18;
    hide GTIN, PathSegment, FreeOf, Render, Origin, KEY;
    assert Render([KEY] + rest) + "" == Render([KEY] + rest);
  }

  /** A GTIN and segments of one kind, with or without a host, are parsed to just that. */
  lemma {:induction false} ParseAfterKey(host: Option<string>, rest: seq<Segment>, kind: Kind)
    requires host.Some? ==> FreeOf(host.value, "/?#") && |host.value| <= 10
    requires kind != UnknownKind && Unique(rest) && |Render(rest)| <= 100
    requires forall i :: 0 <= i < |rest| ==> KindOf(rest[i].0) == kind && PathSegment(rest[i])
    ensures Parse(Origin(host) + ("/01/" + GTIN + Render(rest)))
      == Parsed(if kind == QualifierKind then WithGtin(rest, []) else WithGtin([], rest))
  {
    hide Parse, Render, Placed, FirstPrimary, PathSegment, KindOf, KEY, GTIN, IsPathUri, PathUri, FreeOf, Unique,
      SuffixQuery, Origin;
    UriAfterKey(host, rest);
    PlacedAfterKey(rest, kind);
    EmptySuffix();
    ParsePlaced(host, [KEY] + rest, "");
  }

  lemma {:induction false} RenderAfterKey(rest: seq<Segment>)
    ensures Render([KEY] + rest) == "/01/" + GTIN + Render(rest)
  {
    hide GTIN;
    assert ([KEY] + rest)[1..] == rest;
    assert Written(KEY) == "/01/" + GTIN;
  }

  lemma RenderTwo(a: Segment, b: Segment)
    ensures Render([a]) == Written(a) && Render([a, b]) == Written(a) + Written(b)
  {
    hide Written;
    assert [a, b][1..] == [b] && [b][1..] == [] && [a][1..] == [];
    assert Render([b]) == Written(b) + Render([]) == Written(b);
    assert Render([a]) == Written(a) + Render([]) == Written(a);
  }

  // ----- A value that opens a brace ----------------------------------------

  const LOT: Segment := ("10", "{ser}")
  const SERIAL: Segment := ("21", "X")

  lemma {:induction false} NewKey(d: Context, k: string, v: string)
    requires k !in Keys(d)
    ensures Keys(Put(d, k, v)) == Keys(d) + [k]
  {
    KeysPut(d, k, v);
    HasIsKey(d, k);
  }

  lemma NewAt(ks: seq<string>, i: nat)
    requires Distinct(ks) && i < |ks|
    ensures ks[i] !in ks[..i] && ks[..i + 1] == ks[..i] + [ks[i]]
  {
  }

  lemma {:induction false} NextNames(out: Context, ks: seq<string>, i: nat, ai: string, v: string)
    requires Distinct(ks) && i + 1 < |ks| && Keys(out) == ks[..i] && ks[i] == NameOf(ai) && ks[i + 1] == ai
    ensures Keys(PutBoth(out, ai, v)) == ks[..i + 2]
  {
    hide NameOf, Put, Keys;
    NewAt(ks, i);
    NewAt(ks, i + 1);
    NewKey(out, NameOf(ai), v);
    NewKey(Put(out, NameOf(ai), v), ai, v);
  }

  lemma {:induction false} NextDefault(out: Context, ks: seq<string>, i: nat, v: string)
    requires Distinct(ks) && i < |ks| && Keys(out) == ks[..i]
    ensures Keys(SetDefault(out, ks[i], v)) == ks[..i + 1]
  {
    hide Put, Keys;
    NewAt(ks, i);
    NewKey(out, ks[i], v);
    HasIsKey(out, ks[i]);
  }

  lemma {:induction false} TwoEntries(a: Segment, b: Segment, out: Context)
    requires a.0 != b.0
    ensures Merge([a, b], []) == [a, b]
    ensures PutEach(out, [a, b]) == PutBoth(PutBoth(out, a.0, a.1), b.0, b.1)
  {
    hide PutBoth;
    assert [a, b][1..] == [b] && [b][1..] == [];
    var once := PutBoth(out, a.0, a.1);
    assert PutEach(once, [b]) == PutEach(PutBoth(once, b.0, b.1), [b][1..]);
  }

  /** The keys `as_dict` writes for two qualifiers: names and numbers in the order of the path, then the aliases. */
  lemma KeysOfTwo(r: ParseResult, a: Segment, b: Segment, ks: seq<string>)
    requires r.primaryAi != "" && r.qualifiers == [a, b] && r.attributes == [] && a.0 != b.0
    requires Distinct(ks) && |ks| == 9 && ks[0] == NameOf(r.primaryAi) && ks[1] == r.primaryAi
    requires ks[2] == NameOf(a.0) && ks[3] == a.0 && ks[4] == NameOf(b.0) && ks[5] == b.0
    requires ks[6] == "serial" && ks[7] == "batch" && ks[8] == "expiry"
    ensures Keys(AsDict(r)) == ks
  {
    NoKeys();
    hide NameOf, Get, Put, Keys, PutBoth, SetDefault, PutEach, Merge, Distinct;
    assert ks[..0] == [] && ks[..9] == ks;
    var first := PutBoth([], r.primaryAi, r.primaryValue);
    NextNames([], ks, 0, r.primaryAi, r.primaryValue);
    TwoEntries(a, b, first);
    var second := PutBoth(first, a.0, a.1);
    NextNames(first, ks, 2, a.0, a.1);
    var third := PutBoth(second, b.0, b.1);
    NextNames(second, ks, 4, b.0, b.1);
    var serial := SetDefault(third, "serial", GetOr(r.qualifiers, "21", ""));
    NextDefault(third, ks, 6, GetOr(r.qualifiers, "21", ""));
    var batch := SetDefault(serial, "batch", GetOr(r.qualifiers, "10", ""));
    NextDefault(serial, ks, 7, GetOr(r.qualifiers, "10", ""));
    NextDefault(batch, ks, 8, GetOr(r.attributes, "17", ""));
  }

  lemma NoKeys()
    ensures Keys<string>([]) == []
  {
  }

  predicate OfThree(k: string) { |k| == 3 }

  lemma {:induction false} FilterNone<T>(keep: T -> bool, s: seq<T>)
    requires forall i :: 0 <= i < |s| ==> !keep(s[i])
    ensures Filter(keep, s) == []
  {
    if s == [] {
    } else {
      FilterNone(keep, s[1..]);
    }
  }

  lemma FilterOne<T>(keep: T -> bool, x: T)
    ensures Filter(keep, [x]) == if keep(x) then [x] else []
  {
    assert [x][1..] == [];
  }

  lemma {:induction false} InFive<T>(s: seq<T>, i: nat, j: nat)
    requires i < j < |s|
    ensures s == s[..i] + [s[i]] + s[i + 1..j] + [s[j]] + s[j + 1..]
  {
    assert s[..j] == s[..i] + [s[i]] + s[i + 1..j];
    assert s == s[..j] + [s[j]] + s[j + 1..];
  }

  lemma {:induction false} FilterPair<T>(keep: T -> bool, s: seq<T>, i: nat, j: nat)
    requires i < j < |s| && forall m :: 0 <= m < |s| ==> (keep(s[m]) <==> m == i || m == j)
    ensures Filter(keep, s) == [s[i], s[j]]
  {
    hide Filter;
    var a, b, c := s[..i], s[i + 1..j], s[j + 1..];
    InFive(s, i, j);
    forall m | 0 <= m < |a| ensures !keep(a[m]) { assert a[m] == s[m]; }
    forall m | 0 <= m < |b| ensures !keep(b[m]) { assert b[m] == s[i + 1 + m]; }
    forall m | 0 <= m < |c| ensures !keep(c[m]) { assert c[m] == s[j + 1 + m]; }
    FilterAppend(keep, a + [s[i]] + b + [s[j]], c);
    FilterAppend(keep, a + [s[i]] + b, [s[j]]);
    FilterAppend(keep, a + [s[i]], b);
    FilterAppend(keep, a, [s[i]]);
    FilterNone(keep, a);
    FilterNone(keep, b);
    FilterNone(keep, c);
    FilterOne(keep, s[i]);
    FilterOne(keep, s[j]);
  }

  /** `sorted(..., key=len, reverse=True)` keeps the order of the only two keys of one length. */
  lemma TwoInOrder(ctx: Context, i: nat, j: nat) returns (m: nat, n: nat)
    requires i < j < |ctx| && forall p :: 0 <= p < |ctx| ==> (OfThree(Keys(ctx)[p]) <==> p == i || p == j)
    ensures m < n < |FillOrder(ctx)| && FillOrder(ctx)[m] == Keys(ctx)[i] && FillOrder(ctx)[n] == Keys(ctx)[j]
  {
    hide StableSort, Filter;
    var keys, order := Keys(ctx), FillOrder(ctx);
    FilterPair(OfThree, keys, i, j);
    SortStable(Longer, OfThree, keys);
    assert [keys[i], keys[j]] == [keys[i]] + [keys[j]];
    m := FilterPlaces(OfThree, order, keys[i], [keys[j]]);
    assert [keys[j]] == [keys[j]] + [];
    var q := FilterPlaces(OfThree, order[m + 1..], keys[j], []);
    n := m + 1 + q;
  }

  ghost predicate LotAndSerial(a: Segment, b: Segment) {
    (a == LOT && b == SERIAL) || (a == SERIAL && b == LOT)
  }

  lemma NineDistinct(c: string, d: string, e: string, f: string)
    requires (c == "lot" && d == "10" && e == "ser" && f == "21")
      || (c == "ser" && d == "21" && e == "lot" && f == "10")
    ensures Distinct(["gtin", "01", c, d, e, f, "serial", "batch", "expiry"])
  {
    assert "serial"[0] == 's' && "expiry"[0] == 'e' && "lot"[0] == 'l' && "ser"[0] == 's';
    assert "01"[0] == '0' && "10"[0] == '1' && "21"[0] == '2';
  }

  /** The keys of the context of either URI. */
  lemma ContextKeys(a: Segment, b: Segment) returns (ks: seq<string>)
    requires LotAndSerial(a, b)
    ensures Keys(AsDict(WithGtin([a, b], []))) == ks && |ks| == 9
    ensures ks[2] == NameOf(a.0) && ks[4] == NameOf(b.0)
    ensures forall p :: 0 <= p < 9 ==> (OfThree(ks[p]) <==> p == 2 || p == 4)
  {
    KindsOfRows();
    assert a.0 != b.0 by { assert LOT.0[0] != SERIAL.0[0]; }
    hide KindOf, IsPrimary, NameOf, AsDict, Keys, GTIN;
    ks := ["gtin", "01", NameOf(a.0), a.0, NameOf(b.0), b.0, "serial", "batch", "expiry"];
    NineDistinct(ks[2], ks[3], ks[4], ks[5]);
    KeysOfTwo(WithGtin([a, b], []), a, b, ks);
  }

  lemma TwoWellFormed(a: Segment, b: Segment)
    requires LotAndSerial(a, b)
    ensures WellFormed(WithGtin([a, b], [])) && Unique([a, b])
  {
    KindsOfRows();
    hide KindOf, IsPrimary;
    assert Keys([a, b]) == [a.0] + Keys([a, b][1..]);
    assert [a, b][1..] == [b];
    assert Keys([b]) == [b.0] + Keys([b][1..]) == [b.0];
    assert LOT.0[0] != SERIAL.0[0];
  }

  /** A template that is one hole, where the value of that key is another key's placeholder. */
  lemma FillHoleOfHole(r: ParseResult, k: string, q: string, i: nat, j: nat)
    requires WellFormed(r)
    requires var keys := FillOrder(AsDict(r)); i < |keys| && j < |keys| && i != j && keys[i] == k && keys[j] == q
    requires GetOr(AsDict(r), k, "") == Placeholder(q) && '{' !in GetOr(AsDict(r), q, "")
    ensures Fill(Placeholder(k), AsDict(r)) == if i < j then GetOr(AsDict(r), q, "") else Placeholder(q)
  {
    var ctx := AsDict(r);
    var keys := FillOrder(ctx);
    AsDictUnique(r);
    FillOrderIsOrder(ctx);
    hide FillKeys, AsDict, FillOrder, BraceFree, Get, WellFormed, Unique;
    forall m | 0 <= m < |keys| ensures BraceFree(keys[m]) {
      assert keys[m] in keys;
      ContextKeyBraceFree(r, keys[m]);
    }
    OpenBraceRefilled(keys, ctx, i, j);
  }

  lemma {:induction false} ValueOfName(r: ParseResult, ai: string)
    requires WellFormed(r) && r.attributes == [] && IsKnown(ai)
    ensures Has(r.qualifiers, ai) ==> Get(AsDict(r), NameOf(ai)) == Get(r.qualifiers, ai)
  {
    hide AsDict, NameOf, IsKnown, KeyAi, WellFormed;
    AsDictMeaning(r, NameOf(ai));
    KeyOfName(ai);
  }

  lemma LotAndSerialValues(a: Segment, b: Segment)
    requires LotAndSerial(a, b)
    ensures Get([a, b], "10") == Some("{ser}") && Get([a, b], "21") == Some("X")
  {
    assert [a, b][1..] == [b] && [b][1..] == [];
    assert "10"[0] != "21"[0];
  }

  /** What `{lot}` is filled with, by the order of the lot and the serial number in the path. */
  lemma LotFilled(a: Segment, b: Segment)
    requires LotAndSerial(a, b)
    ensures Fill("{lot}", AsDict(WithGtin([a, b], []))) == if a == LOT then "X" else "{ser}"
  {
    var r := WithGtin([a, b], []);
    TwoWellFormed(a, b);
    KindsOfRows();
    KnownOfKind("10");
    KnownOfKind("21");
    LotAndSerialValues(a, b);
    assert a.0 == (if a == LOT then "10" else "21") && b.0 == (if a == LOT then "21" else "10");
    assert Placeholder("lot") == "{lot}" && Placeholder("ser") == "{ser}";
    hide KindOf, IsPrimary, NameOf, AsDict, Keys, Fill, WellFormed, FillOrder, OfThree, Get, IsKnown, GTIN;
    ValueOfName(r, "10");
    ValueOfName(r, "21");
    var ks := ContextKeys(a, b);
    var m, n := TwoInOrder(AsDict(r), 2, 4);
    if a == LOT {
      FillHoleOfHole(r, "lot", "ser", m, n);
    } else {
      FillHoleOfHole(r, "lot", "ser", n, m);
    }
  }

  lemma KnownOfKind(ai: string)
    requires KindOf(ai) != UnknownKind
    ensures IsKnown(ai)
  {
    hide IsKnown, IsQualifier;
  }

  lemma LotAndSerialPaths()
    ensures PathSegment(LOT) && PathSegment(SERIAL)
    ensures Written(LOT) + Written(SERIAL) == "/10/{ser}/21/X" && Written(SERIAL) + Written(LOT) == "/21/X/10/{ser}"
  {
  }

  lemma ParseTwo(a: Segment, b: Segment)
    requires LotAndSerial(a, b)
    ensures Parse("/01/" + GTIN + (Written(a) + Written(b))) == Parsed(WithGtin([a, b], []))
  {
    LotAndSerialPaths();
    KindsOfRows();
    TwoWellFormed(a, b);
    RenderTwo(a, b);
    assert |Written(a) + Written(b)| == 14 && KindOf(a.0) == KindOf(b.0) == QualifierKind;
    hide Parse, Render, KindOf, IsPrimary, PathSegment, GTIN, KEY, Written;
    NoOrigin("/01/" + GTIN + (Written(a) + Written(b)));
    ParseAfterKey(None, [a, b], QualifierKind);
  }

  /**
   * Without the hypothesis that no value opens a brace, the order of the segments shows in routing: these two
   * URIs are permutations of each other, and the same route sends one to `X` and the other to `{ser}`.
   */
  lemma OpenBraceShowsOrder(full: FullMatch)
    ensures var routes := [Route(Everything, "{lot}", [], [])];
      var a, b := Parse("/01/" + GTIN + "/10/{ser}/21/X"), Parse("/01/" + GTIN + "/21/X/10/{ser}");
      && a.Parsed? && b.Parsed?
      && Resolve(routes, a.result, full) == Some(Resolution("X", []))
      && Resolve(routes, b.result, full) == Some(Resolution("{ser}", []))
  {
    LotAndSerialPaths();
    assert LotAndSerial(LOT, SERIAL) && LotAndSerial(SERIAL, LOT);
    assert LOT != SERIAL by { assert LOT.0[0] != SERIAL.0[0]; }
    hide Parse, Resolve, AsDict, Fill, GTIN, LOT, SERIAL, LotAndSerial, WithGtin, Written;
    ParseTwo(LOT, SERIAL);
    ParseTwo(SERIAL, LOT);
    LotFilled(LOT, SERIAL);
    LotFilled(SERIAL, LOT);
    RouteOne("{lot}", WithGtin([LOT, SERIAL], []), full);
    RouteOne("{lot}", WithGtin([SERIAL, LOT], []), full);
  }

  // ----- A second primary key ----------------------------------------------

  const AGAIN: Segment := ("01", "X")

  lemma AgainPath()
    ensures PathSegment(AGAIN) && FirstPrimary([KEY, AGAIN]) == 0 && LastValue([KEY, AGAIN][1..], "01") == Some("X")
    ensures Written(KEY) + Written(AGAIN) == "/01/" + GTIN + "/01/X" && |Written(KEY) + Written(AGAIN)| == 23
  {
    KindsOfRows();
    hide KindOf, IsPrimary, NameOf;
    assert [KEY, AGAIN][1..] == [AGAIN];
  }

  /** Templates do not see this GTIN, which is the primary key, under either of its names. */
  lemma SecondKeyShown()
    ensures var outcome := Parse("/01/" + GTIN + "/01/X");
      && outcome.Parsed? && (outcome.result.primaryAi, outcome.result.primaryValue) == KEY
      && Get(AsDict(outcome.result), "01") == Get(AsDict(outcome.result), "gtin") == Some("X")
  {
    KeyIsPath();
    AgainPath();
    KindsOfRows();
    RenderTwo(KEY, AGAIN);
    hide Parse, Render, KindOf, IsPrimary, PathSegment, GTIN, Written, NameOf, AsDict, FirstPrimary, LastValue, Placed;
    ParsePath([KEY, AGAIN]);
    KeyPlaced([KEY, AGAIN], "");
    KeyOfPathInTemplates([KEY, AGAIN], "");
  }

  // ----- Canonical URIs ----------------------------------------------------

  const HOST := "id.gs1.org"

  lemma GtinText()
    ensures |GTIN| == 14 && IsDigits(GTIN)
  {
  }

  lemma {:induction false} DigitsUnreserved(s: string)
    requires IsDigits(s)
    ensures AllUnreserved(s)
  {
    forall i | 0 <= i < |s| ensures Unreserved(s[i]) {
      assert IsDigit(s[i]);
    }
  }

  lemma GtinPrinted()
    ensures PadGtin(GTIN) == GTIN && Quote(GTIN) == GTIN
  {
    GtinText();
    hide GTIN, IsDigits, Quote;
    DigitsUnreserved(GTIN);
    assert Zeros(0) + GTIN == GTIN;
    QuoteFixed(GTIN);
  }

  lemma {:induction false} CanonicalAfterKey(r: ParseResult, rest: seq<Segment>)
    requires r.primaryAi == "01" && r.primaryValue == GTIN
    requires CanonicalSegments(r) == [KEY] + rest
    ensures Canonicalise(r, HOST) == Some("https://" + HOST + ("/01/" + GTIN + Render(QuoteSegments(rest))))
  {
    GtinPrinted();
    hide Quote, Render, HOST, PadGtin;
    QuoteAppend([KEY], rest);
    assert QuoteSegments([KEY]) == [KEY];
    RenderAfterKey(QuoteSegments(rest));
  }

  lemma OneKeySorted(k: string)
    ensures SortStrings([k]) == [k] && SortStrings([]) == []
  {
    assert [k][1..] == [];
    assert StableSort(LexLe, [k][1..]) == [];
  }

  lemma {:induction false} PresentNone(ks: seq<string>)
    ensures Present(ks, []) == []
  {
    if ks == [] {
    } else {
      PresentNone(ks[1..]);
    }
  }

  /** The canonical segments of a GTIN with attributes only. */
  lemma {:induction false} AttributesPrinted(attributes: Dict<string>)
    ensures CanonicalSegments(WithGtin([], attributes)) == [KEY] + Entries(attributes, SortStrings(Keys(attributes)))
  {
    GtinPrinted();
    hide GTIN, PadGtin, StableSort, Quote;
    var r := WithGtin([], attributes);
    PresentNone(QualifierOrder("01"));
    OneKeySorted("");
    assert Keys<string>([]) == [];
    assert QualifierKeys(r) == [];
    assert Entries([], []) == [];
  }

  const INTERNAL: Segment := ("90", "a")
  const ADDITIONAL: Segment := ("240", "b")

  lemma AttributeTexts()
    ensures PathSegment(INTERNAL) && PathSegment(ADDITIONAL)
    ensures Quote("a") == "a" && Quote("b") == "b"
    ensures Written(INTERNAL) + Written(ADDITIONAL) == "/90/a/240/b"
    ensures Written(ADDITIONAL) + Written(INTERNAL) == "/240/b/90/a"
    ensures LexLe("240", "90") && !LexLe("90", "240") && "240" != "90"
  {
    assert AllUnreserved("a") && AllUnreserved("b");
    QuoteFixed("a");
    QuoteFixed("b");
    assert "240"[0] == '2' && "90"[0] == '9';
  }

  lemma {:induction false} TwoKeys(a: string, b: string)
    requires !LexLe(a, b)
    ensures SortStrings([a, b]) == [b, a]
  {
    hide LexLe;
    assert [a, b][1..] == [b] && [b][1..] == [];
    assert StableSort(LexLe, [b]) == Insert(LexLe, b, StableSort(LexLe, [])) == [b];
    assert Insert(LexLe, a, [b]) == [b] + Insert(LexLe, a, [b][1..]);
  }

  lemma PairOfAttributes()
    ensures var d := [INTERNAL, ADDITIONAL];
      Unique(d) && Keys(d) == ["90", "240"] && Entries(d, ["240", "90"]) == [ADDITIONAL, INTERNAL]
  {
    var d := [INTERNAL, ADDITIONAL];
    assert "240"[0] == '2' && "90"[0] == '9';
    assert d[1..] == [ADDITIONAL] && [ADDITIONAL][1..] == [];
    assert Keys([ADDITIONAL]) == ["240"] + Keys([ADDITIONAL][1..]) == ["240"];
    assert Keys(d) == ["90"] + Keys(d[1..]);
    assert Get(d, "90") == Some("a") && Get(d, "240") == Get(d[1..], "240") == Some("b");
  }

  lemma ParseAttributes()
    ensures Parse("/01/" + GTIN + "/90/a/240/b") == Parsed(WithGtin([], [INTERNAL, ADDITIONAL]))
  {
    AttributeTexts();
    PairOfAttributes();
    KindsOfRows();
    RenderTwo(INTERNAL, ADDITIONAL);
    NoOrigin("/01/" + GTIN + "/90/a/240/b");
    assert KindOf(INTERNAL.0) == KindOf(ADDITIONAL.0) == AttributeKind;
    hide Parse, Render, KindOf, IsPrimary, PathSegment, GTIN, KEY, Written, LexLe, Quote;
    ParseAfterKey(None, [INTERNAL, ADDITIONAL], AttributeKind);
  }

  lemma SortedAttributes()
    ensures CanonicalSegments(WithGtin([], [INTERNAL, ADDITIONAL])) == [KEY] + [ADDITIONAL, INTERNAL]
    ensures QuoteSegments([ADDITIONAL, INTERNAL]) == [ADDITIONAL, INTERNAL]
    ensures Render([ADDITIONAL, INTERNAL]) == "/240/b/90/a"
  {
    AttributeTexts();
    PairOfAttributes();
    TwoKeys("90", "240");
    AttributesPrinted([INTERNAL, ADDITIONAL]);
    hide Quote, GTIN, LexLe, Written, CanonicalSegments, Entries;
    RenderTwo(ADDITIONAL, INTERNAL);
  }

  lemma NotNumeric(r: ParseResult)
    requires CanonicalSegments(r) == [KEY] + [ADDITIONAL, INTERNAL] && r.qualifiers == []
    ensures !AttributesNumeric(r)
  {
    NumbersOfTwo();
    hide AiNumber, CanonicalSegments;
    assert CanonicalSegments(r)[1] == ADDITIONAL && CanonicalSegments(r)[2] == INTERNAL;
  }

  /** AI 240 is printed before AI 90: the canonical form of this URI does not list its attributes in numeric order. */
  lemma AttributesOutOfOrder()
    ensures var uri := "/01/" + GTIN + "/90/a/240/b";
      && Parse(uri).Parsed?
      && Canonicalise(Parse(uri).result, HOST) == Some("https://" + HOST + ("/01/" + GTIN + "/240/b/90/a"))
      && !AttributesNumeric(Parse(uri).result)
  {
    hide Parse, Render, GTIN, HOST, KEY, INTERNAL, ADDITIONAL, CanonicalSegments, Canonicalise, QuoteSegments,
      AttributesNumeric;
    ParseAttributes();
    SortedAttributes();
    CanonicalAfterKey(WithGtin([], [INTERNAL, ADDITIONAL]), [ADDITIONAL, INTERNAL]);
    NotNumeric(WithGtin([], [INTERNAL, ADDITIONAL]));
  }

  lemma NumbersOfTwo()
    ensures AiNumber("90") == 90 && AiNumber("240") == 240
  {
    assert "90"[..1] == "9" && "9"[..0] == "";
    assert ReadDecimal("9") == 9;
    assert "240"[..2] == "24" && "24"[..1] == "2" && "2"[..0] == "";
    assert ReadDecimal("2") == 2 && ReadDecimal("24") == 24;
  }

  // ----- A value that needs encoding ---------------------------------------

  lemma {:induction false} QuoteCons(c: char, s: string)
    ensures Quote([c] + s) == QuoteChar(c) + Quote(s)
  {
    assert ([c] + s)[1..] == s;
  }

  lemma QuotedChars()
    ensures QuoteChar(' ') == "%20" && QuoteChar('%') == "%25" && QuoteChar('a') == "a"
  {
    hide Quote;
    assert PercentBytes([32]) == "%20" + PercentBytes([32][1..]);
    assert PercentBytes([37]) == "%25" + PercentBytes([37][1..]);
  }

  lemma QuotedEnds()
    ensures Quote("b") == "b" && Quote("20b") == "20b"
  {
    assert AllUnreserved("b") && AllUnreserved("20b");
    hide Quote;
    QuoteFixed("b");
    QuoteFixed("20b");
  }

  lemma QuoteSpaced()
    ensures Quote("a b") == "a%20b" && Quote("a%20b") == "a%2520b"
  {
    hide Quote, QuoteChar;
    QuotedChars();
    QuotedEnds();
    QuoteCons('a', " b");
    QuoteCons(' ', "b");
    QuoteCons('a', "%20b");
    QuoteCons('%', "20b");
    assert ['a'] + " b" == "a b" && [' '] + "b" == " b" && ['a'] + "%20b" == "a%20b" && ['%'] + "20b" == "%20b";
  }

  /** The canonical segments of a GTIN with a lot. */
  lemma LotPrinted(value: string)
    ensures CanonicalSegments(WithGtin([("10", value)], [])) == [KEY] + [("10", value)]
  {
    GtinPrinted();
    hide GTIN, PadGtin, StableSort, Quote;
    var d, r := [("10", value)], WithGtin([("10", value)], []);
    assert d[1..] == [] && Keys(d) == ["10"] + Keys(d[1..]) == ["10"];
    OneKeySorted("10");
    assert Keys<string>([]) == [];
    GetOne("10", value, "10");
    GetOne("10", value, "21");
    GetOne("10", value, "22");
    assert "10"[0] != "21"[0] && "10"[0] != "22"[0];
    LotKeys(d);
    assert Entries(d, ["10"]) == d;
    assert Entries([], []) == [];
  }

  lemma {:induction false} LotKeys(d: Dict<string>)
    requires Has(d, "10") && !Has(d, "21") && !Has(d, "22")
    ensures Present(QualifierOrder("01"), d) == ["10"] && Unseen(["10"], ["10"]) == []
  {
    hide Get;
    var order := ["22", "10", "21"];
    assert order[1..] == ["10", "21"] && order[1..][1..] == ["21"] && ["21"][1..] == [] && ["10"][1..] == [];
    assert Present(["21"], d) == [] + Present(["21"][1..], d) == [];
    assert Present(["10", "21"], d) == ["10"] + Present(["21"], d);
    assert Present(order, d) == [] + Present(["10", "21"], d);
  }

  lemma {:induction false} CanonicalLot(value: string)
    ensures Canonicalise(WithGtin([("10", value)], []), HOST)
         == Some("https://" + HOST + ("/01/" + GTIN + ("/10/" + Quote(value))))
  {
    LotPrinted(value);
    hide Quote, Render, GTIN, HOST, KEY, CanonicalSegments, Canonicalise;
    var seg := ("10", value);
    CanonicalAfterKey(WithGtin([seg], []), [seg]);
    assert QuoteSegments([seg]) == [("10", Quote(value))];
    RenderTwo(("10", Quote(value)), ("10", Quote(value)));
    assert Written(("10", Quote(value))) == "/10/" + Quote(value);
  }

  lemma ParseLot(value: string, host: Option<string>)
    requires PathSegment(("10", value)) && |value| <= 10
    requires host.Some? ==> FreeOf(host.value, "/?#") && |host.value| <= 10
    ensures Parse(Origin(host) + ("/01/" + GTIN + ("/10/" + value))) == Parsed(WithGtin([("10", value)], []))
  {
    var seg: Segment := ("10", value);
    KindsOfRows();
    RenderTwo(seg, seg);
    assert Written(seg) == "/10/" + value;
    assert Unique([seg]) by { assert Keys([seg]) == ["10"] + Keys([seg][1..]); }
    hide Parse, Render, IsPrimary, PathSegment, GTIN, FreeOf, Origin, KindOf, Unique, WithGtin;
    ParseAfterKey(host, [seg], QualifierKind);
  }

  lemma LotTexts()
    ensures PathSegment(("10", "a b")) && PathSegment(("10", "a%20b")) && FreeOf(HOST, "/?#") && |HOST| == 10
    ensures "/10/" + "a b" == "/10/a b" && "/10/" + "a%20b" == "/10/a%20b" && "/10/" + "a%2520b" == "/10/a%2520b"
  {
  }

  /** A value that needs encoding is encoded again: canonicalising this URI twice is not canonicalising it once. */
  lemma EncodedTwice()
    ensures var uri := "/01/" + GTIN + "/10/a b";
      var once := "https://" + HOST + ("/01/" + GTIN + "/10/a%20b");
      var twice := "https://" + HOST + ("/01/" + GTIN + "/10/a%2520b");
      && Parse(uri).Parsed? && Canonicalise(Parse(uri).result, HOST) == Some(once)
      && Parse(once).Parsed? && Canonicalise(Parse(once).result, HOST) == Some(twice)
  {
    QuoteSpaced();
    LotTexts();
    hide Parse, Canonicalise, Quote, GTIN, HOST, FreeOf, PathSegment, WithGtin;
    NoOrigin("/01/" + GTIN + "/10/a b");
    ParseLot("a b", None);
    ParseLot("a%20b", Some(HOST));
    CanonicalLot("a b");
    CanonicalLot("a%20b");
  }
}
