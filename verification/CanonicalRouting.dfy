/** When a canonical URI is routed, and answered, as the URI it stands for. */
module CanonicalRouting {
  import opened Text
  import opened Sorting
  import opened AiTable
  import opened AiTableFacts
  import opened Dict
  import opened Percent
  import opened Url
  import opened Gtin
  import opened Parser
  import opened ParserProofs
  import opened Paths
  import opened Canonical
  import opened CanonicalProofs
  import opened Template
  import opened Router
  import opened RouterProofs

  /** The key is printed as it is: a GTIN is padded already, and nothing needs encoding. */
  ghost predicate PrintsKey(r: ParseResult) {
    PaddedPrimary(r) == r.primaryValue && AllUnreserved(r.primaryValue)
  }

  /** There is nothing to forward. */
  ghost predicate NoQuery(r: ParseResult) {
    forall name :: GetOr(r.queryParams, name, []) == []
  }

  /** Printing loses nothing routing looks at. */
  ghost predicate PrintsWhole(r: ParseResult) {
    PrintsKey(r) && NoQuery(r) && Unreservedly(r.qualifiers) && Unreservedly(r.attributes)
  }

  // ----- Sufficient --------------------------------------------------------

  lemma UnreservedNoBraces(d: Dict<string>)
    requires Unreservedly(d)
    ensures NoBraceValues(d)
  {
    hide AllUnreserved;
    forall i | 0 <= i < |d| ensures '{' !in d[i].1 {
      UnreservedNoBrace(d[i].1);
    }
  }

  lemma ReprintedNoBraces(r: ParseResult)
    requires WellFormed(r)
    ensures NoBraces(Reprinted(r))
  {
    hide KindOf, IsPrimary, Get, Quote, AllEncoded, QualifierKeys, AttributeKeys, PaddedPrimary;
    QualifierKeysPartition(r);
    AttributeKeysSorted(r);
    QuotedKeys(r.qualifiers, QualifierKeys(r), QualifierKind);
    QuotedKeys(r.attributes, AttributeKeys(r), AttributeKind);
    PrimaryGood(r);
    EncodedNoBrace(Quote(PaddedPrimary(r)));
    EncodedValues(Reprinted(r).qualifiers);
    EncodedValues(Reprinted(r).attributes);
  }

  lemma EncodedNoBrace(s: string)
    requires AllEncoded(s)
    ensures '{' !in s
  {
  }

  lemma EncodedValues(d: Dict<string>)
    requires forall i :: 0 <= i < |d| ==> AllEncoded(d[i].1)
    ensures NoBraceValues(d)
  {
    hide AllEncoded;
    forall i | 0 <= i < |d| ensures '{' !in d[i].1 {
      EncodedNoBrace(d[i].1);
    }
  }

  lemma UnreservedNoBrace(s: string)
    requires AllUnreserved(s)
    ensures '{' !in s
  {
  }

  lemma {:induction false} NothingForwarded(names: seq<string>, r: ParseResult)
    requires NoQuery(r)
    ensures Forwarded(names, r.queryParams) == []
  {
    hide Get;
    if names != [] {
      assert GetOr(r.queryParams, names[0], []) == [];
      NothingForwarded(names[1..], r);
    }
  }

  lemma {:induction false} NothingToForward(names: seq<string>)
    ensures Forwarded(names, []) == []
  {
    if names != [] {
      NothingToForward(names[1..]);
    }
  }

  /** A query without values does not show in routing. */
  lemma {:induction false} QueryDropped(routes: seq<Route>, r: ParseResult, full: FullMatch)
    requires NoQuery(r)
    ensures Resolve(routes, r, full) == Resolve(routes, r.(queryParams := []), full)
  {
    hide AppendQuery, Fill, ResolveLinks, Forwarded, Merge, PutBoth, PutEach;
    if routes == [] {
    } else {
      NothingForwarded(routes[0].forwardQuery, r);
      NothingToForward(routes[0].forwardQuery);
      QueryDropped(routes[1..], r, full);
    }
  }

  /** The reprinted result is the same identifier when printing loses nothing. */
  lemma ReprintedSame(r: ParseResult)
    requires WellFormed(r) && PrintsWhole(r)
    ensures SameIdentity(Reprinted(r), r.(queryParams := [])) && WellFormed(r.(queryParams := []))
    ensures NoBraces(r)
  {
    hide IsPrimary, KindOf, Quote, Get, AllUnreserved, PaddedPrimary, QualifierKeys, AttributeKeys, Unique,
      Unreservedly;
    UnreservedNoBraces(r.qualifiers);
    UnreservedNoBraces(r.attributes);
    UnreservedNoBrace(r.primaryValue);
    QuoteFixed(r.primaryValue);
    forall k
      ensures Get(Reprinted(r).qualifiers, k) == QuoteOption(Get(r.qualifiers, k))
      ensures Get(Reprinted(r).attributes, k) == QuoteOption(Get(r.attributes, k))
    {
      ReprintedValues(r, k);
    }
    UnreservedValues(r.qualifiers, Reprinted(r).qualifiers);
    UnreservedValues(r.attributes, Reprinted(r).attributes);
  }

  /**
   * Canonicalising does not change where an identifier goes: a result without a query, whose values are
   * unreserved and whose GTIN, if it has one, is already a GTIN-14, is routed exactly as its canonical URI is.
   */
  lemma RoutedAlike(r: ParseResult, routes: seq<Route>, full: FullMatch)
    requires WellFormed(r) && PrintsWhole(r)
    requires forall i :: 0 <= i < |routes| ==> RouteReadable(routes[i])
    ensures Resolve(routes, Reprinted(r), full) == Resolve(routes, r, full)
  {
    hide WellFormed, PrintsWhole, Resolve, RouteReadable, SameIdentity, NoBraces, Reprinted;
    ReprintedSame(r);
    ReprintedGood(r);
    ReprintedNoBraces(r);
    NoBracesSettled(Reprinted(r));
    QueryDropped(routes, r, full) by { NoQueryOf(r); }
    SameResolution(routes, Reprinted(r), r.(queryParams := []), full);
  }

  lemma NoQueryOf(r: ParseResult)
    requires PrintsWhole(r)
    ensures NoQuery(r)
  {
  }

  // ----- Necessary ---------------------------------------------------------

  /** How many percent signs a text has. */
  function Percents(s: string): nat {
    if s == "" then 0 else (if s[0] == '%' then 1 else 0) + Percents(s[1..])
  }

  lemma {:induction false} PercentsAppend(s: string, t: string)
    ensures Percents(s + t) == Percents(s) + Percents(t)
  {
    if s == "" {
      assert s + t == t;
    } else {
      assert (s + t)[1..] == s[1..] + t;
      PercentsAppend(s[1..], t);
    }
  }

  lemma {:induction false} NoPercents(s: string)
    requires AllUnreserved(s)
    ensures Percents(s) == 0
  {
    if s == "" {
    } else {
      assert Unreserved(s[0]) && forall i :: 0 <= i < |s[1..]| ==> s[1..][i] == s[i + 1];
      NoPercents(s[1..]);
    }
  }

  lemma QuotedChar(c: char)
    ensures |QuoteChar(c)| >= 1
    ensures Percents(QuoteChar(c)) >= if c == '%' || c == '{' then 1 else 0
  {
    if !Unreserved(c) {
      assert QuoteChar(c)[0] == '%';
    }
  }

  /** Quoting makes a text no shorter, takes no percent sign away, and adds one for an open brace. */
  lemma {:induction false} QuotedPercents(s: string)
    ensures |Quote(s)| >= |s| && Percents(Quote(s)) >= Percents(s)
    ensures '{' in s ==> Percents(Quote(s)) > Percents(s)
  {
    hide QuoteChar;
    if s == "" {
    } else {
      QuotedPercents(s[1..]);
      QuotedChar(s[0]);
      PercentsAppend(QuoteChar(s[0]), Quote(s[1..]));
      assert s == [s[0]] + s[1..];
    }
  }

  lemma {:induction false} ReplacePercents(s: string, p: string, value: string)
    requires p != "" && Percents(value) == 0
    ensures Percents(Replace(s, p, value)) <= Percents(s)
    decreases |s|
  {
    if |s| < |p| {
    } else if s[..|p|] == p {
      ReplacePercents(s[|p|..], p, value);
      PercentsAppend(value, Replace(s[|p|..], p, value));
      PercentsAppend(p, s[|p|..]);
      assert s == p + s[|p|..];
    } else {
      ReplacePercents(s[1..], p, value);
      PercentsAppend([s[0]], Replace(s[1..], p, value));
      PercentsAppend([s[0]], s[1..]);
      assert s == [s[0]] + s[1..];
    }
  }

  /** Unreserved values add no percent sign. */
  lemma {:induction false} FillPercents(text: string, keys: seq<string>, ctx: Context)
    requires forall i :: 0 <= i < |keys| ==> AllUnreserved(GetOr(ctx, keys[i], ""))
    ensures Percents(FillKeys(text, keys, ctx)) <= Percents(text)
    decreases keys
  {
    hide Replace, Percents, AllUnreserved, Get;
    if keys == [] {
    } else {
      var value := GetOr(ctx, keys[0], "");
      NoPercents(value);
      ReplacePercents(text, Placeholder(keys[0]), value);
      FillPercents(Replace(text, Placeholder(keys[0]), value), keys[1..], ctx);
    }
  }

  /** The last key whose value needs encoding. */
  lemma {:induction false} LastReserved(keys: seq<string>, ctx: Context) returns (i: nat)
    requires exists j :: 0 <= j < |keys| && !AllUnreserved(GetOr(ctx, keys[j], ""))
    ensures i < |keys| && !AllUnreserved(GetOr(ctx, keys[i], ""))
    ensures forall j :: i < j < |keys| ==> AllUnreserved(GetOr(ctx, keys[j], ""))
  {
    hide AllUnreserved, Get;
    var last := |keys| - 1;
    if AllUnreserved(GetOr(ctx, keys[last], "")) {
      assert forall j :: 0 <= j < last ==> keys[..last][j] == keys[j];
      i := LastReserved(keys[..last], ctx);
    } else {
      i := last;
    }
  }

  /** The last value that needs encoding is not filled in encoded: later values cannot encode it. */
  lemma {:induction false} NotQuoted(keys: seq<string>, ctx: Context, i: nat)
    requires Distinct(keys) && i < |keys| && forall m :: 0 <= m < |keys| ==> BraceFree(keys[m])
    requires !AllUnreserved(GetOr(ctx, keys[i], ""))
    requires forall j :: i < j < |keys| ==> AllUnreserved(GetOr(ctx, keys[j], ""))
    ensures FillKeys(Placeholder(keys[i]), keys, ctx) != Quote(GetOr(ctx, keys[i], ""))
  {
    hide Replace, Get, BraceFree, Source, AllUnreserved, Quote, Percents, FillKeys, Placeholder;
    var k, rest, value := keys[i], keys[i + 1..], GetOr(ctx, keys[i], "");
    HoleAlone(k);
    OthersPass(k, "", keys[..i], ctx);
    PlaceholderSome(k);
    ReplaceWhole(Placeholder(k), value);
    FillInTwo(Placeholder(k), keys, i, ctx);
    if '{' in value {
      FillPercents(value, rest, ctx);
      QuotedPercents(value);
    } else {
      KeysPass(value, rest, ctx);
      QuoteFixed(value);
    }
  }

  lemma PlaceholderSome(k: string)
    ensures Placeholder(k) != ""
  {
  }

  /** The template context of the canonical URI has every value encoded. */
  lemma {:induction false} ContextQuoted(r: ParseResult, k: string)
    requires WellFormed(r) && PrintsKey(r)
    ensures Get(AsDict(Reprinted(r)), k) == QuoteOption(Get(AsDict(r), k))
  {
    hide WellFormed, AsDict, Get, Quote, Reprinted, PaddedPrimary, AllUnreserved, ContextValue, QuoteOption;
    ReprintedGood(r);
    AsDictMeaning(r, k);
    AsDictMeaning(Reprinted(r), k);
    ContextValueQuoted(r, Reprinted(r), k) by {
      PlacesUnique(r);
      KeyKept(r);
      forall q
        ensures Get(Reprinted(r).qualifiers, q) == QuoteOption(Get(r.qualifiers, q))
        ensures Get(Reprinted(r).attributes, q) == QuoteOption(Get(r.attributes, q))
      {
        ReprintedValues(r, q);
      }
    }
  }

  lemma {:induction false} KeyKept(r: ParseResult)
    requires PrintsKey(r)
    ensures Reprinted(r).primaryAi == r.primaryAi
    ensures Reprinted(r).primaryValue == r.primaryValue == Quote(r.primaryValue)
  {
    hide Quote, QualifierKeys, AttributeKeys, PaddedPrimary, AllUnreserved;
    QuoteFixed(r.primaryValue);
  }

  lemma {:induction false} ContextValueQuoted(r: ParseResult, r': ParseResult, k: string)
    requires r'.primaryAi == r.primaryAi && r'.primaryValue == r.primaryValue == Quote(r.primaryValue)
    requires forall q :: Get(r'.qualifiers, q) == QuoteOption(Get(r.qualifiers, q))
    requires forall q :: Get(r'.attributes, q) == QuoteOption(Get(r.attributes, q))
    ensures ContextValue(r', k) == QuoteOption(ContextValue(r, k))
  {
    QuoteNothing();
    hide Get, Quote, KeyAi;
  }

  lemma QuoteNothing()
    ensures Quote("") == ""
  {
  }

  lemma PlacesUnique(r: ParseResult)
    requires WellFormed(r)
    ensures Unique(r.qualifiers) && Unique(r.attributes)
  {
  }

  /** A value that needs encoding shows: some lone placeholder is filled otherwise for the canonical URI. */
  lemma ReservedTells(r: ParseResult, k: string) returns (q: string)
    requires WellFormed(r) && PrintsKey(r) && Has(AsDict(r), k) && !AllUnreserved(Value(AsDict(r), k))
    ensures BraceFree(q) && Fill(Placeholder(q), AsDict(Reprinted(r))) != Fill(Placeholder(q), AsDict(r))
  {
    hide WellFormed, AsDict, Get, Quote, Reprinted, AllUnreserved, PrintsKey, Fill, FillKeys, FillOrder, Placeholder,
      BraceFree, NoBraces, Settled, Unique;
    var ctx, ctx' := AsDict(r), AsDict(Reprinted(r));
    var keys := FillOrder(ctx);
    AsDictUnique(r);
    FillOrderIsOrder(ctx);
    forall m | 0 <= m < |keys| ensures BraceFree(keys[m]) {
      assert keys[m] in keys;
      ContextKeyBraceFree(r, keys[m]);
    }
    assert k in keys;
    var i := LastReserved(keys, ctx);
    q := keys[i];
    assert q in keys;
    NotQuoted(keys, ctx, i);
    FillsKeys(Placeholder(q), ctx) by { PlaceholderSome(q); }
    ContextQuoted(r, q);
    ReprintedGood(r);
    ReprintedNoBraces(r);
    NoBracesSettled(Reprinted(r));
    AsDictUnique(Reprinted(r));
    FillHoleAlone(ctx', q);
  }

  lemma {:induction false} FillsKeys(template: string, ctx: Context)
    requires template != ""
    ensures Fill(template, ctx) == FillKeys(template, FillOrder(ctx), ctx)
  {
  }

  /** An attribute or a qualifier that needs encoding is the value of a template key. */
  lemma ReservedKey(r: ParseResult) returns (k: string)
    requires WellFormed(r) && !(Unreservedly(r.qualifiers) && Unreservedly(r.attributes))
    ensures Has(AsDict(r), k) && !AllUnreserved(Value(AsDict(r), k))
  {
    hide AsDict, AllUnreserved, Get, IsPrimary, IsKnown, IsQualifier, KeyAi, Unique;
    if !Unreservedly(r.attributes) {
      var i :| 0 <= i < |r.attributes| && !AllUnreserved(r.attributes[i].1);
      k := r.attributes[i].0;
      GetAt(r.attributes, i);
    } else {
      var i :| 0 <= i < |r.qualifiers| && !AllUnreserved(r.qualifiers[i].1);
      k := r.qualifiers[i].0;
      GetAt(r.qualifiers, i);
      if Has(r.attributes, k) {
        FoundAt(r.attributes, k);
        assert false;
      }
    }
    KeyOfNumber(k);
    AsDictMeaning(r, k);
  }

  lemma PlaceholderReadable(k: string)
    requires BraceFree(k)
    ensures Readable(Placeholder(k))
  {
    var rest := k + "}";
    assert FreeOf(k, "{}") by { assert forall i :: 0 <= i < |k| ==> k[i] != '{' && k[i] != '}'; }
    FindAnyStops(k, "}", "{}");
    assert Placeholder(k)[1..] == rest;
    assert FindAny(Placeholder(k), "{") == 0;
    assert rest[|k| + 1..] == "";
    assert Readable("");
  }

  /** A route that asks for a value starting with the encoded key, and takes the key alone. */
  function PrefixRoute(prefix: string): Route {
    Route(Clauses(Missing, Scalar(prefix), None, Missing, None), "x", [], [])
  }

  lemma PrefixRouted(prefix: string, r: ParseResult, full: FullMatch)
    ensures Resolve([PrefixRoute(prefix)], r, full).Some? <==> StartsWith(r.primaryValue, prefix)
  {
    hide FollowRoute, StartsWith;
    var route := PrefixRoute(prefix);
    assert Matches(route.match_, r, full) == StartsWith(r.primaryValue, prefix);
    assert FirstMatch([route], r, full) == if Matches(route.match_, r, full) then Some(route) else None;
  }

  /** The key is printed as it is exactly when it is the printed key. */
  lemma KeyAsPrinted(r: ParseResult)
    ensures PrintsKey(r) <==> Quote(PaddedPrimary(r)) == r.primaryValue
    ensures |Quote(PaddedPrimary(r))| >= |r.primaryValue|
  {
    hide Quote, PadGtin, AllUnreserved;
    QuotedPercents(PaddedPrimary(r));
    PadLonger(r.primaryValue);
    QuoteFixed(r.primaryValue);
  }

  lemma PrefixTells(r: ParseResult, full: FullMatch)
    requires !PrintsKey(r)
    ensures var route := PrefixRoute(Quote(PaddedPrimary(r)));
      Resolve([route], Reprinted(r), full).Some? && Resolve([route], r, full).None?
  {
    hide Quote, Resolve, PadGtin, AllUnreserved, QualifierKeys, AttributeKeys, StartsWith;
    var p := Quote(PaddedPrimary(r));
    PrefixRouted(p, r, full);
    PrefixRouted(p, Reprinted(r), full);
    PrefixOfLonger(p, p);
    PrefixOfLonger(r.primaryValue, p);
    KeyAsPrinted(r);
  }

  lemma PrefixOfLonger(s: string, prefix: string)
    ensures StartsWith(s, s)
    ensures StartsWith(s, prefix) ==> |s| >= |prefix| && (|s| == |prefix| ==> s == prefix)
  {
  }

  lemma PadLonger(s: string)
    ensures |PadGtin(s)| >= |s| && (|PadGtin(s)| == |s| ==> PadGtin(s) == s)
  {
    assert Zeros(0) + s == s;
  }

  lemma QueryTells(r: ParseResult, name: string, full: FullMatch)
    requires GetOr(r.queryParams, name, []) != []
    ensures var route := Route(Everything, "x", [], [name]);
      Resolve([route], Reprinted(r), full) != Resolve([route], r, full)
  {
    var sent := Pair(name, GetOr(r.queryParams, name, []));
    hide UrlSplit, ParseQsl, AppendQuery, Get, AsDict, FillOrder;
    assert [name][1..] == [];
    assert Forwarded([name], r.queryParams) == sent + Forwarded([], r.queryParams) == sent;
    NothingToForward([name]);
    KeysPass("x", FillOrder(AsDict(r)), AsDict(r));
    KeysPass("x", FillOrder(AsDict(Reprinted(r))), AsDict(Reprinted(r)));
    AppendQueryDecodes("x", sent);
    AppendQueryDecodes("x", []);
    assert |ParseQsl(UrlSplit("x").query) + sent| > |ParseQsl(UrlSplit("x").query)|;
  }

  lemma PlainReadable()
    ensures Readable("x")
  {
    assert FreeOf("x", "{");
  }

  /** Whatever printing loses, some route without links tells the identifier from its canonical URI. */
  lemma TellingRoute(r: ParseResult, full: FullMatch) returns (route: Route)
    requires WellFormed(r) && !PrintsWhole(r)
    ensures RouteReadable(route) && route.linkTypes == []
    ensures Resolve([route], Reprinted(r), full) != Resolve([route], r, full)
  {
    hide WellFormed, Resolve, Reprinted, Readable, PrintsKey, Get, AsDict, Fill, Placeholder, BraceFree, Unreservedly,
      AllUnreserved, Quote, PaddedPrimary;
    PlainReadable();
    if !PrintsKey(r) {
      route := PrefixRoute(Quote(PaddedPrimary(r)));
      PrefixTells(r, full);
    } else if !NoQuery(r) {
      var name :| GetOr(r.queryParams, name, []) != [];
      route := Route(Everything, "x", [], [name]);
      QueryTells(r, name, full);
    } else {
      var k := ReservedKey(r);
      var q := ReservedTells(r, k);
      route := Route(Everything, Placeholder(q), [], []);
      PlaceholderReadable(q);
      RouteOne(Placeholder(q), r, full);
      RouteOne(Placeholder(q), Reprinted(r), full);
    }
  }

  ghost predicate AllReadable(routes: seq<Route>) {
    forall i :: 0 <= i < |routes| ==> RouteReadable(routes[i])
  }

  /**
   * When a canonical URI is routed as the URI it stands for: by every list of readable routes exactly when printing
   * loses nothing, that is, when there is no query value to forward, a GTIN is padded already, and every value is
   * unreserved.
   */
  lemma CanonicalRoutesAlike(r: ParseResult, host: string, full: FullMatch)
    requires WellFormed(r) && FreeOf(host, "/?#")
    requires |Canonicalise(r, host).GetOr("")| <= MAX_URI_LENGTH
    ensures var canonical := Parse(Canonicalise(r, host).GetOr(""));
      && canonical.Parsed?
      && ((forall routes :: AllReadable(routes) ==>
             Resolve(routes, canonical.result, full) == Resolve(routes, r, full))
          <==> PrintsWhole(r))
  {
    hide Parse, IsPrimary, CanonicalPath, FreeOf, Origin, RouteReadable, Resolve, GoodPlaces, PrintsWhole, Reprinted;
    KindKnown(r.primaryAi);
    KnownAi(r.primaryAi);
    PrintThenParse(r, Some(host));
    if PrintsWhole(r) {
      forall routes | AllReadable(routes) ensures Resolve(routes, Reprinted(r), full) == Resolve(routes, r, full) {
        RoutedAlike(r, routes, full);
      }
    } else {
      var route := TellingRoute(r, full);
      assert AllReadable([route]);
    }
  }
}
