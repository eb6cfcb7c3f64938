/** What routing promises: templates see a map, routing does not see segment order, and queries are forwarded whole. */
module RouterProofs {
  import opened Text
  import opened AiTable
  import opened AiTableFacts
  import opened Dict
  import opened Scanner
  import opened Url
  import opened Parser
  import opened ParserProofs
  import opened Paths
  import opened CanonicalProofs
  import opened Template
  import opened Router

  // ----- Which route is followed -------------------------------------------

  /** Route `i` is the first that matches. */
  ghost predicate FirstMatching(routes: seq<Route>, r: ParseResult, full: FullMatch, i: nat) {
    && i < |routes| && Matches(routes[i].match_, r, full)
    && forall j :: 0 <= j < i ==> !Matches(routes[j].match_, r, full)
  }

  lemma {:induction false} FirstMatchIs(routes: seq<Route>, r: ParseResult, full: FullMatch)
    ensures forall i: nat :: FirstMatching(routes, r, full, i) ==> FirstMatch(routes, r, full) == Some(routes[i])
    ensures FirstMatch(routes, r, full).Some? ==> exists i: nat :: FirstMatching(routes, r, full, i)
  {
    hide Matches;
    if routes == [] {
    } else {
      FirstMatchIs(routes[1..], r, full);
      assert forall j :: 1 <= j < |routes| ==> routes[j] == routes[1..][j - 1];
      if Matches(routes[0].match_, r, full) {
        assert FirstMatching(routes, r, full, 0);
      } else {
        forall i: nat | FirstMatching(routes, r, full, i) ensures FirstMatching(routes[1..], r, full, i - 1) {
        }
        if i: nat :| FirstMatching(routes[1..], r, full, i) {
          assert FirstMatching(routes, r, full, i + 1);
        }
      }
    }
  }

  /** A link as it is sent: its URL and title filled in, its URL with the forwarded pairs, the rest as configured. */
  ghost predicate SentLink(link: LinkType, sent: LinkType, ctx: Context, pairs: Pairs) {
    && sent.rel == link.rel && sent.mediaType == link.mediaType && sent.hreflang == link.hreflang
    && sent.title == Fill(link.title, ctx) && sent.href == AppendQuery(Fill(link.href, ctx), pairs)
  }

  /** What following a route gives: its target and each of its links, filled in and with the forwarded pairs. */
  ghost predicate Followed(route: Route, r: ParseResult, res: Resolution) {
    var ctx, pairs := AsDict(r), Forwarded(route.forwardQuery, r.queryParams);
    && res.target == AppendQuery(Fill(route.target, ctx), pairs)
    && |res.links| == |route.linkTypes|
    && forall k :: 0 <= k < |route.linkTypes| ==> SentLink(route.linkTypes[k], res.links[k], ctx, pairs)
  }

  /** The first route that matches is followed, and there is no answer exactly when none matches. */
  lemma FirstMatchFollowed(routes: seq<Route>, r: ParseResult, full: FullMatch)
    ensures forall i: nat :: FirstMatching(routes, r, full, i) ==>
      Resolve(routes, r, full).Some? && Followed(routes[i], r, Resolve(routes, r, full).value)
    ensures Resolve(routes, r, full) == None
      <==> forall i :: 0 <= i < |routes| ==> !Matches(routes[i].match_, r, full)
  {
    hide Matches, FirstMatch, AsDict, Fill, AppendQuery, Forwarded;
    FirstMatchIs(routes, r, full);
    if i: nat :| i < |routes| && Matches(routes[i].match_, r, full) {
      FirstOf(routes, r, full, i);
    }
  }

  /** Where some route matches, one matches first. */
  lemma {:induction false} FirstOf(routes: seq<Route>, r: ParseResult, full: FullMatch, i: nat)
    requires i < |routes| && Matches(routes[i].match_, r, full)
    ensures exists j: nat :: FirstMatching(routes, r, full, j)
  {
    hide Matches;
    if j: nat :| j < i && Matches(routes[j].match_, r, full) {
      FirstOf(routes, r, full, j);
    } else {
      assert FirstMatching(routes, r, full, i);
    }
  }

  // ----- What a match clause asks of a path --------------------------------

  /**
   * What a match asks of a path: its key's AI and value, and the last values of its qualifiers. A clause that is
   * missing asks nothing; `null` is compared as the text `None`, which no AI is.
   */
  ghost predicate AskedOf(m: Match, segs: seq<Segment>, full: FullMatch)
    requires FirstPrimary(segs) < |segs|
  {
    var (ai, value) := segs[FirstPrimary(segs)];
    match m
    case Everything => true
    case Clauses(primaryAi, gtinPrefix, gtinRegex, hasQualifier, serialIn) =>
      && (primaryAi == Missing || primaryAi == Scalar(ai))
      && (gtinPrefix.Scalar? ==> gtinPrefix.text <= value)
      && (gtinPrefix.Null? ==> "None" <= value)
      && (gtinRegex.Some? ==> full(gtinRegex.value, value))
      && !hasQualifier.Null?
      && (hasQualifier.Scalar? ==>
            hasQualifier.text in QUALIFIER_AIS && LastValue(Others(segs), hasQualifier.text).Some?)
      && (serialIn.Some? ==> exists v :: v in serialIn.value && LastValue(Others(segs), "21") == Some(v))
  }

  lemma NoneIsNoAi(ai: string)
    requires AiShaped(ai)
    ensures ai != "None"
  {
    assert IsDigit(ai[0]) && "None"[0] == 'N';
  }

  lemma NoneIsNoQualifier()
    ensures "None" !in QUALIFIER_AIS && "21" in QUALIFIER_AIS
  {
    assert |"None"| == 4 && "None"[0] == 'N' && "8011"[0] == '8';
  }

  lemma {:induction false} QualifierPlaced(segs: seq<Segment>, query: string, k: string)
    requires FirstPrimary(segs) < |segs|
    ensures Get(Placed(segs, query).qualifiers, k) == if k in QUALIFIER_AIS then LastValue(Others(segs), k) else None
  {
    hide KindOf, Get, Placed, FirstPrimary, LastValue, QUALIFIER_AIS;
    PlacedValues(segs, query, k);
    KindMeaning(k);
  }

  lemma {:induction false} MatchesPlaced(m: Match, segs: seq<Segment>, query: string, full: FullMatch)
    requires FirstPrimary(segs) < |segs| && AiShaped(segs[FirstPrimary(segs)].0)
    ensures Matches(m, Placed(segs, query), full) <==> AskedOf(m, segs, full)
  {
    var r, key := Placed(segs, query), segs[FirstPrimary(segs)];
    NoneIsNoAi(key.0);
    NoneIsNoQualifier();
    hide Placed, FirstPrimary, LastValue, Others, Get, QUALIFIER_AIS, AiShaped, Matches;
    KeyPlaced(segs, query);
    QualifierPlaced(segs, query, "21");
    if m.Clauses? {
      QualifierPlaced(segs, query, Str(m.hasQualifier));
      MatchesResult(m, r, full, key.0, key.1, LastValue(Others(segs), Str(m.hasQualifier)),
        LastValue(Others(segs), "21"));
    } else {
      EverythingMatches(r, full);
    }
  }

  lemma {:induction false} EverythingMatches(r: ParseResult, full: FullMatch)
    ensures Matches(Everything, r, full)
  {
  }

  /** Clause by clause, for a result with this key and these values of the qualifier asked for and of the serial. */
  lemma {:induction false} MatchesResult(
    m: Match, r: ParseResult, full: FullMatch, ai: string, value: string, asked: Option<string>,
    serial: Option<string>)
    requires m.Clauses? && r.primaryAi == ai && r.primaryValue == value && ai != "None"
    requires "None" !in QUALIFIER_AIS && Get(r.qualifiers, "21") == serial
    requires Get(r.qualifiers, Str(m.hasQualifier)) == if Str(m.hasQualifier) in QUALIFIER_AIS then asked else None
    ensures Matches(m, r, full) <==>
      && (m.primaryAi == Missing || m.primaryAi == Scalar(ai))
      && (m.gtinPrefix.Scalar? ==> m.gtinPrefix.text <= value)
      && (m.gtinPrefix.Null? ==> "None" <= value)
      && (m.gtinRegex.Some? ==> full(m.gtinRegex.value, value))
      && !m.hasQualifier.Null?
      && (m.hasQualifier.Scalar? ==> m.hasQualifier.text in QUALIFIER_AIS && asked.Some?)
      && (m.serialIn.Some? ==> exists v :: v in m.serialIn.value && serial == Some(v))
  {
    hide Get, QUALIFIER_AIS;
  }

  /** A route matches a URI of segments if and only if the path has what the route asks for. */
  lemma {:induction false} MatchesPath(
    m: Match, host: Option<string>, segs: seq<Segment>, suffix: string, full: FullMatch)
    requires IsPathUri(host, segs, suffix) && FirstPrimary(segs) < |segs|
    ensures var outcome := Parse(PathUri(host, segs, suffix));
      outcome.Parsed? && (Matches(m, outcome.result, full) <==> AskedOf(m, segs, full))
  {
    assert PathSegment(segs[FirstPrimary(segs)]);
    hide Parse, PathUri, Placed, FirstPrimary, SuffixQuery, AskedOf, Matches;
    ParsePlaced(host, segs, suffix);
    MatchesPlaced(m, segs, SuffixQuery(suffix), full);
  }

  // ----- Query forwarding --------------------------------------------------

  /** Forwarding rewrites the query of a URL and nothing else. */
  lemma AppendQueryKeepsRest(url: string, pairs: Pairs)
    requires pairs != [] && url != ""
    ensures UrlSplit(AppendQuery(url, pairs))
      == UrlSplit(url).(query := UrlEncode(ParseQsl(UrlSplit(url).query) + pairs))
  {
    hide UrlSplit, UrlUnsplit, UrlEncode, ParseQsl, FreeOf, HasScheme, Lower, IsScheme;
    var p := UrlSplit(url);
    SplitIsSplittable(url);
    FieldsOfPairs(ParseQsl(p.query) + pairs);
    SplitUnsplit(p.(query := UrlEncode(ParseQsl(p.query) + pairs)));
  }

  /** The query of the produced URL decodes to the pairs it had, followed by the forwarded ones. */
  lemma AppendQueryDecodes(url: string, pairs: Pairs)
    ensures url != "" ==> ParseQsl(UrlSplit(AppendQuery(url, pairs)).query) == ParseQsl(UrlSplit(url).query) + pairs
    ensures url == "" || pairs == [] ==> AppendQuery(url, pairs) == url
  {
    hide UrlSplit, ParseQsl;
    if pairs != [] && url != "" {
      AppendQueryKeepsRest(url, pairs);
      ParseEncode(ParseQsl(UrlSplit(url).query) + pairs);
    }
  }

  /** The incoming pairs a route forwards: for each listed name in turn, that name's pairs in their order. */
  function Selected(names: seq<string>, incoming: Pairs): Pairs {
    if names == [] then []
    else Pair(names[0], ValuesOf(incoming, names[0])) + Selected(names[1..], incoming)
  }

  lemma {:induction false} ForwardedSelects(names: seq<string>, query: string)
    ensures Forwarded(names, ParseQs(query)) == Selected(names, ParseQsl(query))
  {
    hide ParseQsl;
    if names == [] {
    } else {
      GroupValues(ParseQsl(query), names[0]);
      ForwardedSelects(names[1..], query);
    }
  }

  lemma {:induction false} ClassifyKeepsQuery(primarySet: bool, r: ParseResult, segs: seq<Segment>)
    ensures ClassifyAll(primarySet, r, segs).1.queryParams == r.queryParams
    ensures ClassifyAll(primarySet, r, segs).1.linkType == r.linkType
    decreases segs
  {
    hide IsPrimary, IsKnown, IsQualifier;
    if segs == [] {
    } else {
      var (set', r') := Classify(primarySet, r, segs[0]);
      ClassifyKeepsQuery(set', r', segs[1..]);
    }
  }

  /** `produced` is `filled` with the sent pairs added to its query, and nothing else changed. */
  ghost predicate CarriesQuery(filled: string, produced: string, sent: Pairs) {
    if filled == "" || sent == [] then produced == filled
    else
      && ParseQsl(UrlSplit(produced).query) == ParseQsl(UrlSplit(filled).query) + sent
      && UrlSplit(produced) == UrlSplit(filled).(query := UrlSplit(produced).query)
  }

  lemma AppendCarries(filled: string, sent: Pairs)
    ensures CarriesQuery(filled, AppendQuery(filled, sent), sent)
  {
    hide UrlSplit, ParseQsl, AppendQuery;
    AppendQueryDecodes(filled, sent);
    if filled != "" && sent != [] {
      AppendQueryKeepsRest(filled, sent);
    }
  }

  /**
   * Query forwarding, end to end: for any URI that parses and any route, the query of the target, and of every
   * link, decodes to the pairs of the filled template followed by the incoming pairs of the listed names, in
   * route order, decoded; no other incoming pair appears, and the rest of the URL is kept.
   */
  lemma ForwardingRoundTrip(uri: string, route: Route)
    ensures match Parse(uri)
      case Refused(_) => true
      case Parsed(r) =>
        var sent := Selected(route.forwardQuery, ParseQsl(UrlSplit(uri).query));
        && CarriesQuery(Fill(route.target, AsDict(r)), FollowRoute(route, r).target, sent)
        && forall i :: 0 <= i < |route.linkTypes| ==>
             CarriesQuery(Fill(route.linkTypes[i].href, AsDict(r)), FollowRoute(route, r).links[i].href, sent)
  {
    hide NormaliseAlpha, PathOf, FindAll, UrlSplit, ParseQsl, Fill, AsDict, Forwarded, Selected, AppendQuery, ParseQs,
      CarriesQuery;
    if Parse(uri).Parsed? {
      var r := Parse(uri).result;
      var sent := Selected(route.forwardQuery, ParseQsl(UrlSplit(uri).query));
      ClassifyKeepsQuery(false, Blank(UrlSplit(uri).query), FindAll(NormaliseAlpha(PathOf(uri))));
      ForwardedSelects(route.forwardQuery, UrlSplit(uri).query);
      AppendCarries(Fill(route.target, AsDict(r)), sent);
      forall i | 0 <= i < |route.linkTypes|
        ensures CarriesQuery(Fill(route.linkTypes[i].href, AsDict(r)), FollowRoute(route, r).links[i].href, sent)
      {
        AppendCarries(Fill(route.linkTypes[i].href, AsDict(r)), sent);
      }
    }
  }

  // ----- The template context as a map -------------------------------------

  /** The AI a template key stands for: a number or a short name. */
  function KeyAi(k: string): Option<string> {
    if IsKnown(k) then Some(k) else AiOfName(k)
  }

  lemma KeysOfAi(ai: string, k: string)
    requires IsKnown(ai)
    ensures (k == ai || k == NameOf(ai)) <==> KeyAi(k) == Some(ai)
    ensures BraceFree(ai) && BraceFree(NameOf(ai))
  {
    hide IsKnown, NameOf, AiOfName;
    KnownAi(ai);
    if IsKnown(k) {
      KnownAi(k);
    }
    if AiOfName(k).Some? {
      KnownName(k);
    }
  }

  ghost predicate KnownKeys(d: Dict<string>) {
    forall i :: 0 <= i < |d| ==> IsKnown(d[i].0)
  }

  lemma {:induction false} GetPutBoth(out: Context, ai: string, v: string, k: string)
    requires IsKnown(ai)
    ensures Get(PutBoth(out, ai, v), k) == if KeyAi(k) == Some(ai) then Some(v) else Get(out, k)
  {
    hide IsKnown, NameOf, KeyAi;
    KeysOfAi(ai, k);
    GetPut(out, NameOf(ai), v, k);
    GetPut(Put(out, NameOf(ai), v), ai, v, k);
  }

  lemma {:induction false} GetPutEach(out: Context, entries: Dict<string>, k: string)
    requires Unique(entries) && KnownKeys(entries)
    ensures Get(PutEach(out, entries), k) ==
      if KeyAi(k).Some? && Has(entries, KeyAi(k).value) then Get(entries, KeyAi(k).value) else Get(out, k)
    decreases entries
  {
    hide IsKnown, KeyAi, PutBoth;
    if entries == [] {
    } else {
      var (ai, v) := entries[0];
      assert Keys(entries[1..]) == Keys(entries)[1..];
      GetPutBoth(out, ai, v, k);
      GetPutEach(PutBoth(out, ai, v), entries[1..], k);
      HeadOnce(entries);
    }
  }

  lemma {:induction false} MergeMeaning(d: Dict<string>, e: Dict<string>, k: string)
    requires Unique(d) && Unique(e) && KnownKeys(d) && KnownKeys(e)
    ensures Unique(Merge(d, e)) && KnownKeys(Merge(d, e))
    ensures Get(Merge(d, e), k) == if Has(e, k) then Get(e, k) else Get(d, k)
    decreases e
  {
    hide IsKnown;
    if e == [] {
    } else {
      assert Keys(e[1..]) == Keys(e)[1..];
      PutUnique(d, e[0].0, e[0].1);
      PutEntries(d, e[0].0, e[0].1);
      GetPut(d, e[0].0, e[0].1, k);
      HeadOnce(e);
      MergeMeaning(Put(d, e[0].0, e[0].1), e[1..], k);
    }
  }

  lemma {:induction false} GetSetDefault(out: Context, d: string, v: string, k: string)
    ensures Get(SetDefault(out, d, v), k) == if k == d && !Has(out, k) then Some(v) else Get(out, k)
  {
    GetPut(out, d, v, k);
  }

  /**
   * What a template key means: the attribute, else the qualifier, else the primary value of the AI it stands
   * for; three names stand for AIs 21, 10 and 17, with "" when those are absent.
   */
  function ContextValue(r: ParseResult, k: string): Option<string> {
    if KeyAi(k).Some? then
      var ai := KeyAi(k).value;
      if Has(r.attributes, ai) then Get(r.attributes, ai)
      else if Has(r.qualifiers, ai) then Get(r.qualifiers, ai)
      else if ai == r.primaryAi then Some(r.primaryValue)
      else None
    else if k == "serial" then Some(GetOr(r.qualifiers, "21", ""))
    else if k == "batch" then Some(GetOr(r.qualifiers, "10", ""))
    else if k == "expiry" then Some(GetOr(r.attributes, "17", ""))
    else None
  }

  lemma GoodKeysKnown(d: Dict<string>, kind: Kind)
    requires GoodDict(d, kind) && kind != UnknownKind
    ensures KnownKeys(d)
  {
    hide IsKnown, IsQualifier;
  }

  lemma AliasKeys(k: string)
    requires k == "serial" || k == "batch" || k == "expiry"
    ensures KeyAi(k).None?
  {
    hide IsKnown, AiOfName;
    AliasesApart();
  }

  /** `as_dict` holds exactly these values, in whatever order its keys were inserted. */
  lemma {:induction false} AsDictMeaning(r: ParseResult, k: string)
    requires WellFormed(r)
    ensures Get(AsDict(r), k) == ContextValue(r, k)
  {
    hide IsKnown, KeyAi, KindOf, IsPrimary, Get, Put, PutBoth, PutEach, Merge, Unique, KnownKeys;
    GoodKeysKnown(r.qualifiers, QualifierKind);
    GoodKeysKnown(r.attributes, AttributeKind);
    KindKnown(r.primaryAi);
    KnownAi(r.primaryAi);
    var out := PutBoth([], r.primaryAi, r.primaryValue);
    var merged := Merge(r.qualifiers, r.attributes);
    var all := PutEach(out, merged);
    MergeMeaning(r.qualifiers, r.attributes, k);
    GetPutBoth([], r.primaryAi, r.primaryValue, k);
    GetPutEach(out, merged, k);
    NothingInEmpty(k);
    if KeyAi(k).Some? {
      MergeMeaning(r.qualifiers, r.attributes, KeyAi(k).value);
    }
    if k == "serial" || k == "batch" || k == "expiry" {
      AliasKeys(k);
    }
    var serial := SetDefault(all, "serial", GetOr(r.qualifiers, "21", ""));
    var batch := SetDefault(serial, "batch", GetOr(r.qualifiers, "10", ""));
    GetSetDefault(all, "serial", GetOr(r.qualifiers, "21", ""), k);
    GetSetDefault(serial, "batch", GetOr(r.qualifiers, "10", ""), k);
    GetSetDefault(batch, "expiry", GetOr(r.attributes, "17", ""), k);
  }

  lemma ContextKeyBraceFree(r: ParseResult, k: string)
    requires WellFormed(r) && Has(AsDict(r), k)
    ensures BraceFree(k)
  {
    hide IsKnown, AiOfName, NameOf, Get, AsDict, WellFormed;
    AsDictMeaning(r, k);
    if IsKnown(k) {
      KnownAi(k);
    } else if AiOfName(k).Some? {
      KnownName(k);
      KnownAi(AiOfName(k).value);
    }
  }

  lemma KeyOfName(ai: string)
    requires IsKnown(ai)
    ensures KeyAi(NameOf(ai)) == Some(ai)
  {
    hide IsKnown, NameOf, AiOfName, KeyAi;
    KeysOfAi(ai, NameOf(ai));
  }

  /**
   * What templates see of the primary key: under its number and its name, the attribute with the same AI, if there is
   * one. They see its own value, as the documentation promises, exactly when there is none or it has the same value.
   */
  lemma KeyInTemplates(r: ParseResult)
    requires WellFormed(r)
    ensures var shown := GetOr(r.attributes, r.primaryAi, r.primaryValue);
      Get(AsDict(r), r.primaryAi) == Get(AsDict(r), NameOf(r.primaryAi)) == Some(shown)
    ensures Get(AsDict(r), r.primaryAi) == Some(r.primaryValue)
      <==> (Has(r.attributes, r.primaryAi) ==> Value(r.attributes, r.primaryAi) == r.primaryValue)
  {
    hide AsDict, Get, NameOf, IsKnown, IsPrimary, IsQualifier, KeyAi, Unique;
    PrimaryAi(r.primaryAi);
    NoQualifier(r, r.primaryAi);
    KeyOfNumber(r.primaryAi);
    KeyOfName(r.primaryAi);
    AsDictMeaning(r, r.primaryAi);
    AsDictMeaning(r, NameOf(r.primaryAi));
  }

  lemma NoQualifier(r: ParseResult, ai: string)
    requires WellFormed(r) && !IsQualifier(ai)
    ensures !Has(r.qualifiers, ai)
  {
    hide IsKnown, IsQualifier, Get, IsPrimary, Unique;
    if Has(r.qualifiers, ai) {
      FoundAt(r.qualifiers, ai);
    }
  }

  lemma KeyOfNumber(ai: string)
    requires IsKnown(ai)
    ensures KeyAi(ai) == Some(ai)
  {
  }

  /**
   * The same for paths: templates see the value of the last segment after the key that has the key's AI, if there is
   * one, and the key's own value exactly when there is none or it has the same value.
   */
  lemma {:induction false} KeyOfPathInTemplates(segs: seq<Segment>, query: string)
    requires FirstPrimary(segs) < |segs| && forall i :: 0 <= i < |segs| ==> PathSegment(segs[i])
    ensures var p := FirstPrimary(segs); var (ai, value) := segs[p]; var later := LastValue(segs[p + 1..], ai);
      var ctx := AsDict(Placed(segs, query));
      && Get(ctx, ai) == Get(ctx, NameOf(ai)) == Some(later.GetOr(value))
      && (Get(ctx, ai) == Some(value) <==> later.None? || later == Some(value))
  {
    hide AsDict, Get, NameOf, IsPrimary, PathSegment, FirstPrimary, LastValue, WellFormed, Others;
    var key := segs[FirstPrimary(segs)];
    var r := Placed(segs, query);
    PlacedWellFormed(segs, query);
    KeyInTemplates(r);
    PlacedValues(segs, query, key.0);
    LastWithKeyAi(segs);
    PrimaryIsAttribute(key.0);
    KeyPlaced(segs, query);
  }

  lemma PrimaryIsAttribute(ai: string)
    requires IsPrimary(ai)
    ensures KindOf(ai) == AttributeKind
  {
    hide IsPrimary, IsKnown, IsQualifier;
    PrimaryAi(ai);
  }

  // ----- Values that open no brace -----------------------------------------

  ghost predicate NoBraceValues(d: Dict<string>) {
    forall i :: 0 <= i < |d| ==> '{' !in d[i].1
  }

  /** What a URI must avoid for its templates to be filled simultaneously: no value opens a brace. */
  ghost predicate NoBraces(r: ParseResult) {
    '{' !in r.primaryValue && NoBraceValues(r.qualifiers) && NoBraceValues(r.attributes)
  }

  lemma {:induction false} InertPut(out: Context, k: string, v: string)
    requires Inert(out) && BraceFree(k) && '{' !in v
    ensures Inert(Put(out, k, v))
  {
    hide BraceFree;
    PutEntries(out, k, v);
  }

  lemma {:induction false} InertPutEach(out: Context, entries: Dict<string>)
    requires Inert(out) && KnownKeys(entries) && NoBraceValues(entries)
    ensures Inert(PutEach(out, entries))
    decreases entries
  {
    hide IsKnown, Inert, BraceFree, NameOf, Put;
    if entries == [] {
    } else {
      var (ai, v) := entries[0];
      KeysOfAi(ai, ai);
      InertPut(out, NameOf(ai), v);
      InertPut(Put(out, NameOf(ai), v), ai, v);
      InertPutEach(PutBoth(out, ai, v), entries[1..]);
    }
  }

  lemma {:induction false} MergeNoBraces(d: Dict<string>, e: Dict<string>)
    requires NoBraceValues(d) && NoBraceValues(e) && KnownKeys(d) && KnownKeys(e)
    ensures NoBraceValues(Merge(d, e)) && KnownKeys(Merge(d, e))
    decreases e
  {
    hide IsKnown;
    if e == [] {
    } else {
      PutEntries(d, e[0].0, e[0].1);
      MergeNoBraces(Put(d, e[0].0, e[0].1), e[1..]);
    }
  }

  lemma ValueNoBrace(d: Dict<string>, k: string)
    requires NoBraceValues(d)
    ensures '{' !in GetOr(d, k, "")
  {
    if Has(d, k) {
      FoundAt(d, k);
      var i :| 0 <= i < |d| && d[i] == (k, Value(d, k));
    }
  }

  lemma InertDefault(out: Context, k: string, v: string)
    requires Inert(out) && BraceFree(k) && '{' !in v
    ensures Inert(SetDefault(out, k, v))
  {
    hide Inert, BraceFree;
    InertPut(out, k, v);
  }

  lemma PutBothUnique(out: Context, ai: string, v: string)
    requires Unique(out)
    ensures Unique(PutBoth(out, ai, v))
  {
    hide NameOf, Put, Unique;
    PutUnique(out, NameOf(ai), v);
    PutUnique(Put(out, NameOf(ai), v), ai, v);
  }

  lemma {:induction false} PutEachUnique(out: Context, entries: Dict<string>)
    requires Unique(out)
    ensures Unique(PutEach(out, entries))
    decreases entries
  {
    hide PutBoth, Unique;
    if entries == [] {
    } else {
      PutBothUnique(out, entries[0].0, entries[0].1);
      PutEachUnique(PutBoth(out, entries[0].0, entries[0].1), entries[1..]);
    }
  }

  lemma SetDefaultUnique(out: Context, k: string, v: string)
    requires Unique(out)
    ensures Unique(SetDefault(out, k, v))
  {
    hide Unique, Put;
    PutUnique(out, k, v);
  }

  /** `as_dict` gives a dict: no key twice. */
  lemma AsDictUnique(r: ParseResult)
    ensures Unique(AsDict(r))
  {
    hide PutBoth, PutEach, Merge, Unique, Get, SetDefault;
    assert Unique<string>([]) by { EmptyUnique(); }
    PutBothUnique([], r.primaryAi, r.primaryValue);
    var out := if r.primaryAi == "" then [] else PutBoth([], r.primaryAi, r.primaryValue);
    var all := PutEach(out, Merge(r.qualifiers, r.attributes));
    PutEachUnique(out, Merge(r.qualifiers, r.attributes));
    var serial := SetDefault(all, "serial", GetOr(r.qualifiers, "21", ""));
    SetDefaultUnique(all, "serial", GetOr(r.qualifiers, "21", ""));
    var batch := SetDefault(serial, "batch", GetOr(r.qualifiers, "10", ""));
    SetDefaultUnique(serial, "batch", GetOr(r.qualifiers, "10", ""));
    SetDefaultUnique(batch, "expiry", GetOr(r.attributes, "17", ""));
  }

  lemma EmptyUnique()
    ensures Unique<string>([])
  {
  }

  /** The context of a URI without open braces fills templates simultaneously. */
  lemma AsDictInert(r: ParseResult)
    requires WellFormed(r) && NoBraces(r)
    ensures Inert(AsDict(r))
  {
    hide IsKnown, KindOf, IsPrimary, PutEach, Merge, NoBraceValues, KnownKeys, Inert, Get, NameOf, Unique, Put;
    GoodKeysKnown(r.qualifiers, QualifierKind);
    GoodKeysKnown(r.attributes, AttributeKind);
    KindKnown(r.primaryAi);
    KnownAi(r.primaryAi);
    KeysOfAi(r.primaryAi, r.primaryAi);
    EmptyInert();
    InertPut([], NameOf(r.primaryAi), r.primaryValue);
    InertPut(Put([], NameOf(r.primaryAi), r.primaryValue), r.primaryAi, r.primaryValue);
    MergeNoBraces(r.qualifiers, r.attributes);
    var all := PutEach(PutBoth([], r.primaryAi, r.primaryValue), Merge(r.qualifiers, r.attributes));
    InertPutEach(PutBoth([], r.primaryAi, r.primaryValue), Merge(r.qualifiers, r.attributes));
    ValueNoBrace(r.qualifiers, "21");
    ValueNoBrace(r.qualifiers, "10");
    ValueNoBrace(r.attributes, "17");
    var serial := SetDefault(all, "serial", GetOr(r.qualifiers, "21", ""));
    InertDefault(all, "serial", GetOr(r.qualifiers, "21", ""));
    InertDefault(serial, "batch", GetOr(r.qualifiers, "10", ""));
    InertDefault(SetDefault(serial, "batch", GetOr(r.qualifiers, "10", "")), "expiry", GetOr(r.attributes, "17", ""));
  }

  lemma EmptyInert()
    ensures Inert([])
  {
  }

  // ----- Routing does not see the order of segments ------------------------

  lemma SameContext(a: ParseResult, b: ParseResult)
    requires WellFormed(a) && WellFormed(b) && SameIdentity(a, b)
    ensures SameMap(AsDict(a), AsDict(b))
  {
    hide WellFormed, AsDict, KeyAi, Get;
    forall k ensures Get(AsDict(a), k) == Get(AsDict(b), k) {
      AsDictMeaning(a, k);
      AsDictMeaning(b, k);
      SameContextValue(a, b, k);
    }
  }

  lemma SameContextValue(a: ParseResult, b: ParseResult, k: string)
    requires SameIdentity(a, b)
    ensures ContextValue(a, k) == ContextValue(b, k)
  {
    hide Get, KeyAi;
    assert forall q :: Get(a.qualifiers, q) == Get(b.qualifiers, q);
    assert forall q :: Get(a.attributes, q) == Get(b.attributes, q);
  }

  /** Every template of a route can be read: each open brace is closed before the next. */
  predicate RouteReadable(route: Route) {
    Readable(route.target) && forall i :: 0 <= i < |route.linkTypes| ==>
      Readable(route.linkTypes[i].href) && Readable(route.linkTypes[i].title)
  }

  lemma SameMatches(m: Match, a: ParseResult, b: ParseResult, full: FullMatch)
    requires SameIdentity(a, b)
    ensures Matches(m, a, full) == Matches(m, b, full)
  {
    hide Get;
    assert forall q :: Get(a.qualifiers, q) == Get(b.qualifiers, q);
  }

  lemma SameRoute(route: Route, a: ParseResult, b: ParseResult)
    requires WellFormed(a) && WellFormed(b) && SameIdentity(a, b) && Settled(AsDict(a))
    requires RouteReadable(route)
    ensures FollowRoute(route, a) == FollowRoute(route, b)
  {
    hide WellFormed, AsDict, Settled, Readable, Fill, AppendQuery, Forwarded, SameMap, Unique;
    AsDictUnique(a);
    AsDictUnique(b);
    SameContext(a, b);
    FillOrderIrrelevant(route.target, AsDict(a), AsDict(b));
    var fa, fb := FollowRoute(route, a), FollowRoute(route, b);
    forall i | 0 <= i < |route.linkTypes| ensures fa.links[i] == fb.links[i] {
      FillOrderIrrelevant(route.linkTypes[i].href, AsDict(a), AsDict(b));
      FillOrderIrrelevant(route.linkTypes[i].title, AsDict(a), AsDict(b));
    }
    assert fa.links == fb.links;
  }

  /** Results that agree as maps are resolved alike, as long as no value makes work for another template key. */
  lemma {:induction false} SameResolution(routes: seq<Route>, a: ParseResult, b: ParseResult, full: FullMatch)
    requires WellFormed(a) && WellFormed(b) && SameIdentity(a, b) && Settled(AsDict(a))
    requires forall i :: 0 <= i < |routes| ==> RouteReadable(routes[i])
    ensures Resolve(routes, a, full) == Resolve(routes, b, full)
  {
    hide WellFormed, Settled, AsDict, SameIdentity, RouteReadable, Matches, FollowRoute;
    if routes == [] {
    } else {
      SameMatches(routes[0].match_, a, b, full);
      SameRoute(routes[0], a, b);
      SameResolution(routes[1..], a, b, full);
    }
  }

  lemma NoBracesSettled(r: ParseResult)
    requires WellFormed(r) && NoBraces(r)
    ensures Settled(AsDict(r))
  {
    hide WellFormed, NoBraces, AsDict, Settled, Inert;
    AsDictInert(r);
    InertSettled(AsDict(r));
  }

  // ----- Permuted paths ----------------------------------------------------

  lemma {:induction false} NoBracePutAll(d: Dict<string>, segs: seq<Segment>)
    requires NoBraceValues(d) && forall i :: 0 <= i < |segs| ==> '{' !in segs[i].1
    ensures NoBraceValues(PutAll(d, segs))
    decreases segs
  {
    if segs == [] {
    } else {
      PutEntries(d, segs[0].0, segs[0].1);
      NoBracePutAll(Put(d, segs[0].0, segs[0].1), segs[1..]);
    }
  }

  lemma {:induction false} NoBraceKind(segs: seq<Segment>, kind: Kind)
    requires FirstPrimary(segs) < |segs| && forall i :: 0 <= i < |segs| ==> '{' !in segs[i].1
    ensures NoBraceValues(PutAll([], OfKind(Others(segs), kind)))
  {
    hide KindOf, IsPrimary, FirstPrimary, Others;
    var xs := OfKind(Others(segs), kind);
    OthersAt(segs);
    OfKindMembers(Others(segs), kind);
    forall i | 0 <= i < |xs| ensures '{' !in xs[i].1 {
      assert xs[i] in xs && xs[i] in Others(segs);
    }
    NoBracePutAll([], xs);
  }

  lemma {:induction false} NoBracePlaced(segs: seq<Segment>, query: string)
    requires FirstPrimary(segs) < |segs| && forall i :: 0 <= i < |segs| ==> '{' !in segs[i].1
    ensures NoBraces(Placed(segs, query))
  {
    hide IsPrimary, OfKind, Others, ParseQs, FirstPrimary, PutAll, NoBraceValues;
    NoBraceKind(segs, QualifierKind);
    NoBraceKind(segs, AttributeKind);
  }

  /** The context of a path whose values open no brace is settled. */
  lemma {:induction false} PlainSettled(segs: seq<Segment>, query: string)
    requires FirstPrimary(segs) < |segs|
    requires forall i :: 0 <= i < |segs| ==> PathSegment(segs[i]) && '{' !in segs[i].1
    ensures Settled(AsDict(Placed(segs, query)))
  {
    hide IsPrimary, PathSegment, FirstPrimary, Placed, Settled, AsDict, NoBraces, WellFormed;
    PlacedWellFormed(segs, query);
    NoBracePlaced(segs, query);
    NoBracesSettled(Placed(segs, query));
  }

  lemma RouteOne(template: string, r: ParseResult, full: FullMatch)
    ensures Resolve([Route(Everything, template, [], [])], r, full) == Some(Resolution(Fill(template, AsDict(r)), []))
  {
    hide Fill, AsDict;
  }

  /**
   * A route whose target is the name of the key in braces sends a path to the value of the last segment that has the
   * key's AI, which is not the key's own value when a later segment has another.
   */
  lemma {:induction false} KeyTemplateResolved(segs: seq<Segment>, query: string, full: FullMatch)
    requires FirstPrimary(segs) < |segs|
    requires forall i :: 0 <= i < |segs| ==> PathSegment(segs[i]) && '{' !in segs[i].1
    ensures var p := FirstPrimary(segs); var (ai, value) := segs[p];
      Resolve([Route(Everything, Placeholder(NameOf(ai)), [], [])], Placed(segs, query), full)
        == Some(Resolution(LastValue(segs[p + 1..], ai).GetOr(value), []))
  {
    hide IsPrimary, NameOf, PathSegment, FirstPrimary, Placed, Settled, AsDict, LastValue, Get, Fill, Placeholder,
      Unique;
    var r := Placed(segs, query);
    PlainSettled(segs, query);
    AsDictUnique(r);
    KeyOfPathInTemplates(segs, query);
    FillHoleAlone(AsDict(r), NameOf(segs[FirstPrimary(segs)].0));
  }

  /**
   * What routing sees of a path, AIs repeated or not: two paths with the same query, the same key and the same last
   * value of every other known AI get the same target and the same links from every list of readable routes, as long
   * as no value makes work for another template key. The order of the segments does not show, though `as_dict` lists
   * its keys in another order for each and `_fill` breaks ties by that order.
   */
  lemma {:induction false} RoutingSeesLastValues(
    routes: seq<Route>, full: FullMatch, host: Option<string>, host': Option<string>, segs: seq<Segment>,
    segs': seq<Segment>, suffix: string)
    requires forall i :: 0 <= i < |routes| ==> RouteReadable(routes[i])
    requires IsPathUri(host, segs, suffix) && FirstPrimary(segs) < |segs|
    requires IsPathUri(host', segs', suffix) && FirstPrimary(segs') < |segs'|
    requires segs[FirstPrimary(segs)] == segs'[FirstPrimary(segs')] && SameLastValues(segs, segs')
    requires Settled(AsDict(Placed(segs, SuffixQuery(suffix))))
    ensures var a, b := Parse(PathUri(host, segs, suffix)), Parse(PathUri(host', segs', suffix));
      a.Parsed? && b.Parsed? && Resolve(routes, a.result, full) == Resolve(routes, b.result, full)
  {
    var q := SuffixQuery(suffix);
    PlacedWellFormed(segs, q);
    PlacedWellFormed(segs', q);
    hide Parse, Resolve, RouteReadable, IsPathUri, PathUri, Placed, SuffixQuery, SameIdentity, WellFormed,
      FirstPrimary, SameLastValues, Settled, AsDict;
    ParsePlaced(host, segs, suffix);
    ParsePlaced(host', segs', suffix);
    SamePlaced(segs, segs', q);
    SameResolution(routes, Placed(segs, q), Placed(segs', q), full);
  }

  /**
   * Routing does not see the order of the segments: two URIs whose segments are permutations of each other, with
   * distinct AIs and one primary key, get the same target and the same links from every list of readable routes, as
   * long as no value makes work for another template key; values that open no brace make none.
   */
  lemma RoutingIgnoresSegmentOrder(
    routes: seq<Route>, full: FullMatch, host: Option<string>, segs: seq<Segment>, segs': seq<Segment>, suffix: string)
    requires forall i :: 0 <= i < |routes| ==> RouteReadable(routes[i])
    requires IsPathUri(host, segs, suffix)
    requires multiset(segs) == multiset(segs') && DistinctAis(segs) && OnePrimary(segs)
    requires Settled(AsDict(Placed(segs, SuffixQuery(suffix)))) || forall i :: 0 <= i < |segs| ==> '{' !in segs[i].1
    ensures var a, b := Parse(PathUri(host, segs, suffix)), Parse(PathUri(host, segs', suffix));
      a.Parsed? && b.Parsed? && Resolve(routes, a.result, full) == Resolve(routes, b.result, full)
  {
    hide Parse, Resolve, RouteReadable, PathUri, Placed, SuffixQuery, SameIdentity, FirstPrimary, IsPrimary,
      DistinctAis, Settled, AsDict, PathSegment, SameLastValues, FreeOf;
    PermutedParse(host, segs, segs', suffix);
    if forall i :: 0 <= i < |segs| ==> '{' !in segs[i].1 {
      PlainSettled(segs, SuffixQuery(suffix));
    }
    RoutingSeesLastValues(routes, full, host, host, segs, segs', suffix);
  }
}
