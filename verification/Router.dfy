/** The routing engine: matching, template contexts, query forwarding and first-match resolution. */
module Router {
  import opened Text
  import opened AiTable
  import opened Dict
  import opened Url
  import opened Parser
  import opened Template

  // ----- Routes ------------------------------------------------------------

  /** A match clause as YAML gives it: missing, `null`, or a scalar (taken as its `str`). */
  datatype Clause = Missing | Null | Scalar(text: string)

  /** `str(m[clause])`, for a clause that is present. */
  function Str(c: Clause): string {
    if c.Scalar? then c.text else "None"
  }

  /** `"*"`, `{}` or `None` match everything; otherwise every clause present must hold. */
  datatype Match = Everything | Clauses(
    primaryAi: Clause,
    gtinPrefix: Clause,
    gtinRegex: Option<string>,
    hasQualifier: Clause,
    serialIn: Option<seq<string>>)

  datatype Lang = NoLang | OneLang(tag: string) | ManyLangs(tags: seq<string>)

  datatype LinkType = LinkType(rel: string, href: string, mediaType: string, title: string, hreflang: Lang)

  datatype Route = Route(match_: Match, target: string, linkTypes: seq<LinkType>, forwardQuery: seq<string>)

  // ----- Loading -----------------------------------------------------------

  /** A link type as the configuration gives it; `rel` and `href` are texts, as the configuration check demands. */
  datatype LinkRule = LinkRule(rel: string, href: string, mediaType: Clause, title: Clause, hreflang: Lang)

  /** The `link_types` of a rule: missing, `null`, or a list. */
  datatype LinkRules = NoLinkRules | NullLinkRules | LinkRules(links: seq<LinkRule>)

  /** A rule of the configuration; a missing or `null` `forward_query` forwards nothing. */
  datatype Rule = Rule(match_: Option<Match>, target: string, linkTypes: LinkRules, forwardQuery: Option<seq<string>>)

  /**
   * A configuration file: one that cannot be read or does not pass the check, or its rules, the validator its
   * `validator` block builds, if it builds one, and its `well_known` block.
   */
  datatype Config<V, W> = BadConfig | Config(rules: seq<Rule>, validator: Option<V>, wellKnown: W)

  /** A router loads this configuration without an exception. */
  predicate Loads<V, W>(config: Config<V, W>) {
    config.Config? && Loadable(config.rules) && config.validator.Some?
  }

  /** `lt.get(key, default)`, where `null` counts as no text, as it does wherever the value is used. */
  function TextOr(value: Clause, default: string): string {
    match value case Missing => default case Null => "" case Scalar(text) => text
  }

  function LoadedLink(rule: LinkRule): LinkType {
    LinkType(rule.rel, rule.href, TextOr(rule.mediaType, "text/html"), TextOr(rule.title, ""), rule.hreflang)
  }

  function LoadedLinks(rules: seq<LinkRule>): (links: seq<LinkType>)
    ensures |links| == |rules|
    ensures forall i :: 0 <= i < |rules| ==> links[i] == LoadedLink(rules[i])
  {
    if rules == [] then [] else [LoadedLink(rules[0])] + LoadedLinks(rules[1..])
  }

  /** The route of a rule whose `link_types` can be iterated. */
  function LoadedRoute(rule: Rule): Route {
    Route(
      rule.match_.GetOr(Everything),
      rule.target,
      if rule.linkTypes.LinkRules? then LoadedLinks(rule.linkTypes.links) else [],
      rule.forwardQuery.GetOr([]))
  }

  function LoadedRoutes(rules: seq<Rule>): (routes: seq<Route>)
    ensures |routes| == |rules|
    ensures forall i :: 0 <= i < |rules| ==> routes[i] == LoadedRoute(rules[i])
  {
    if rules == [] then [] else [LoadedRoute(rules[0])] + LoadedRoutes(rules[1..])
  }

  lemma LoadedNext(rules: seq<Rule>, i: nat)
    requires i < |rules|
    ensures LoadedRoutes(rules[..i + 1]) == LoadedRoutes(rules[..i]) + [LoadedRoute(rules[i])]
  {
    hide LoadedRoute, LoadedRoutes;
    var next := LoadedRoutes(rules[..i]) + [LoadedRoute(rules[i])];
    forall k | 0 <= k <= i ensures LoadedRoutes(rules[..i + 1])[k] == next[k] {
      assert rules[..i + 1][k] == rules[k];
    }
  }

  lemma LoadableNext(rules: seq<Rule>, i: nat)
    requires i < |rules| && Loadable(rules[..i])
    ensures Loadable(rules[..i + 1]) <==> !rules[i].linkTypes.NullLinkRules?
    ensures rules[i].linkTypes.NullLinkRules? ==> !Loadable(rules)
  {
    assert rules[..i + 1] == rules[..i] + [rules[i]];
  }

  /** A link as it is loaded: an HTML page without a title, unless the rule says more; `null` counts as no text. */
  ghost predicate LinkLoaded(rule: LinkRule, link: LinkType) {
    && link.rel == rule.rel && link.href == rule.href && link.hreflang == rule.hreflang
    && (rule.mediaType == Missing ==> link.mediaType == "text/html")
    && (rule.mediaType == Null ==> link.mediaType == "")
    && (rule.mediaType.Scalar? ==> link.mediaType == rule.mediaType.text)
    && (rule.title.Scalar? ==> link.title == rule.title.text) && (!rule.title.Scalar? ==> link.title == "")
  }

  /** A route as it is loaded: it matches everything, has no links and forwards nothing, unless the rule says more. */
  ghost predicate RouteLoaded(rule: Rule, route: Route) {
    && route.target == rule.target
    && (rule.match_ == Some(route.match_) || (rule.match_ == None && route.match_ == Everything))
    && (rule.forwardQuery == Some(route.forwardQuery) || (rule.forwardQuery == None && route.forwardQuery == []))
    && (rule.linkTypes == NoLinkRules ==> route.linkTypes == [])
    && (rule.linkTypes.LinkRules? ==>
          && |route.linkTypes| == |rule.linkTypes.links|
          && forall k :: 0 <= k < |route.linkTypes| ==> LinkLoaded(rule.linkTypes.links[k], route.linkTypes[k]))
  }

  /** What a configuration loads to: one route for each rule, in order. */
  lemma {:induction false} LoadedMeaning(rules: seq<Rule>)
    ensures |LoadedRoutes(rules)| == |rules|
    ensures forall i :: 0 <= i < |rules| ==> RouteLoaded(rules[i], LoadedRoutes(rules)[i])
  {
    hide LoadedRoute, LoadedRoutes, RouteLoaded;
    forall i | 0 <= i < |rules| ensures RouteLoaded(rules[i], LoadedRoutes(rules)[i]) {
      RouteMeaning(rules[i]);
    }
  }

  lemma {:induction false} RouteMeaning(rule: Rule)
    ensures RouteLoaded(rule, LoadedRoute(rule))
  {
    hide LoadedLinks, LoadedLink, LinkLoaded;
    if rule.linkTypes.LinkRules? {
      forall k | 0 <= k < |rule.linkTypes.links|
        ensures LinkLoaded(rule.linkTypes.links[k], LoadedLinks(rule.linkTypes.links)[k])
      {
        LinkMeaning(rule.linkTypes.links[k]);
      }
    }
  }

  lemma {:induction false} LinkMeaning(rule: LinkRule)
    ensures LinkLoaded(rule, LoadedLink(rule))
  {
  }

  /** The links of one rule, with the defaults for what it does not say. */
  method LoadLinks(rules: seq<LinkRule>) returns (links: seq<LinkType>)
    ensures links == LoadedLinks(rules)
  {
    links := [];
    for i := 0 to |rules|
      invariant links == LoadedLinks(rules)[..i]
    {
      var rule := rules[i];
      var mediaType := if rule.mediaType.Missing? then "text/html" else TextOr(rule.mediaType, "");
      var title := if rule.title.Scalar? then rule.title.text else "";
      links := links + [LinkType(rule.rel, rule.href, mediaType, title, rule.hreflang)];
    }
  }

  /** Every rule loads: the configuration check lets `link_types: null` pass, loading does not. */
  predicate Loadable(rules: seq<Rule>) {
    forall i :: 0 <= i < |rules| ==> !rules[i].linkTypes.NullLinkRules?
  }

  // ----- Matching ----------------------------------------------------------

  /** `re.fullmatch(pattern, text) is not None`, left to the caller. */
  type FullMatch = (string, string) -> bool

  /** `Route.matches(parsed)`. */
  predicate Matches(m: Match, r: ParseResult, full: FullMatch) {
    match m
    case Everything => true
    case Clauses(primaryAi, gtinPrefix, gtinRegex, hasQualifier, serialIn) =>
      && (primaryAi.Missing? || r.primaryAi == Str(primaryAi))
      && (gtinPrefix.Missing? || StartsWith(r.primaryValue, Str(gtinPrefix)))
      && (gtinRegex.None? || full(gtinRegex.value, r.primaryValue))
      && (hasQualifier.Missing? || Has(r.qualifiers, Str(hasQualifier)))
      && (serialIn.None? || (Has(r.qualifiers, "21") && Value(r.qualifiers, "21") in serialIn.value))
  }

  // ----- The template context ----------------------------------------------

  /** One AI's two entries: under its name and under its number. */
  function PutBoth(out: Context, ai: string, value: string): Context {
    Put(Put(out, NameOf(ai), value), ai, value)
  }

  function PutEach(out: Context, entries: Dict<string>): Context
    decreases entries
  {
    if entries == [] then out else PutEach(PutBoth(out, entries[0].0, entries[0].1), entries[1..])
  }

  /** `out.setdefault(k, v)`. */
  function SetDefault(out: Context, k: string, v: string): Context {
    if Has(out, k) then out else Put(out, k, v)
  }

  /** `GS1ParseResult.as_dict()`. */
  function AsDict(r: ParseResult): Context {
    var out := if r.primaryAi == "" then [] else PutBoth([], r.primaryAi, r.primaryValue);
    var all := PutEach(out, Merge(r.qualifiers, r.attributes));
    var serial := SetDefault(all, "serial", GetOr(r.qualifiers, "21", ""));
    var batch := SetDefault(serial, "batch", GetOr(r.qualifiers, "10", ""));
    SetDefault(batch, "expiry", GetOr(r.attributes, "17", ""))
  }

  method BuildContext(r: ParseResult) returns (out: Context)
    ensures out == AsDict(r)
  {
    hide NameOf;
    out := [];
    if r.primaryAi != "" {
      out := Put(out, NameOf(r.primaryAi), r.primaryValue);
      out := Put(out, r.primaryAi, r.primaryValue);
    }
    var merged := Merge(r.qualifiers, r.attributes);
    ghost var whole := PutEach(out, merged);
    for i := 0 to |merged|
      invariant PutEach(out, merged[i..]) == whole
    {
      var (ai, value) := merged[i];
      assert merged[i..][1..] == merged[i + 1..];
      out := Put(out, NameOf(ai), value);
      out := Put(out, ai, value);
    }
    out := SetDefault(out, "serial", GetOr(r.qualifiers, "21", ""));
    out := SetDefault(out, "batch", GetOr(r.qualifiers, "10", ""));
    out := SetDefault(out, "expiry", GetOr(r.attributes, "17", ""));
  }

  // ----- Query forwarding --------------------------------------------------

  function Pair(name: string, values: seq<string>): (p: Pairs)
    ensures |p| == |values|
    ensures forall i :: 0 <= i < |values| ==> p[i] == (name, values[i])
  {
    if values == [] then [] else [(name, values[0])] + Pair(name, values[1..])
  }

  /** `Route.forwarded(parsed)`: the listed names in route order, each with its values in order. */
  function Forwarded(names: seq<string>, params: Dict<seq<string>>): Pairs {
    if names == [] then []
    else Pair(names[0], Get(params, names[0]).GetOr([])) + Forwarded(names[1..], params)
  }

  /** `_append_query(url, pairs)`. */
  function AppendQuery(url: string, pairs: Pairs): string {
    if pairs == [] || url == "" then url
    else
      var p := UrlSplit(url);
      UrlUnsplit(p.(query := UrlEncode(ParseQsl(p.query) + pairs)))
  }

  // ----- Resolution --------------------------------------------------------

  /** `LinkType.resolve(ctx, forward)`. */
  function ResolveLink(link: LinkType, ctx: Context, forward: Pairs): LinkType {
    link.(href := AppendQuery(Fill(link.href, ctx), forward), title := Fill(link.title, ctx))
  }

  function ResolveLinks(links: seq<LinkType>, ctx: Context, forward: Pairs): (r: seq<LinkType>)
    ensures |r| == |links|
    ensures forall i :: 0 <= i < |links| ==> r[i] == ResolveLink(links[i], ctx, forward)
  {
    if links == [] then [] else [ResolveLink(links[0], ctx, forward)] + ResolveLinks(links[1..], ctx, forward)
  }

  datatype Resolution = Resolution(target: string, links: seq<LinkType>)

  function FollowRoute(route: Route, r: ParseResult): Resolution {
    var ctx := AsDict(r);
    var forward := Forwarded(route.forwardQuery, r.queryParams);
    Resolution(AppendQuery(Fill(route.target, ctx), forward), ResolveLinks(route.linkTypes, ctx, forward))
  }

  /** The first route that matches. */
  function FirstMatch(routes: seq<Route>, r: ParseResult, full: FullMatch): Option<Route> {
    if routes == [] then None
    else if Matches(routes[0].match_, r, full) then Some(routes[0])
    else FirstMatch(routes[1..], r, full)
  }

  /** `Router.resolve(parsed)`. */
  function Resolve(routes: seq<Route>, r: ParseResult, full: FullMatch): Option<Resolution> {
    match FirstMatch(routes, r, full)
    case Some(route) => Some(FollowRoute(route, r))
    case None => None
  }

  /** `V` is the type of validators, `W` that of the `well_known` block. */
  class Router<V, W> {
    var routes: seq<Route>
    var validator: V
    var wellKnown: W

    constructor (noValidation: V, empty: W)
      ensures routes == [] && validator == noValidation && wellKnown == empty
    {
      routes, validator, wellKnown := [], noValidation, empty;
    }

    /**
     * The rules of a configuration take the place of the routes loaded before, then its validator and its block are
     * stored. Loading stops with an exception at a bad configuration, at the first rule whose `link_types` is `null`,
     * or at a validator that cannot be built; what was done before stays done.
     */
    method Load(config: Config<V, W>) returns (loaded: bool)
      modifies this
      ensures loaded <==> Loads(config)
      ensures loaded ==>
        routes == LoadedRoutes(config.rules) && validator == config.validator.value && wellKnown == config.wellKnown
      ensures !loaded ==> validator == old(validator) && wellKnown == old(wellKnown)
      ensures config.BadConfig? ==> routes == old(routes)
      ensures config.Config? && Loadable(config.rules) ==> routes == LoadedRoutes(config.rules)
      ensures config.Config? && !Loadable(config.rules) ==>
        exists n :: 0 <= n < |config.rules| && config.rules[n].linkTypes.NullLinkRules? && Loadable(config.rules[..n])
                    && routes == LoadedRoutes(config.rules[..n])
    {
      hide LoadedLinks;
      if config.BadConfig? {
        return false;
      }
      var rules := config.rules;
      routes := [];
      for i := 0 to |rules|
        invariant Loadable(rules[..i]) && routes == LoadedRoutes(rules[..i])
        invariant validator == old(validator) && wellKnown == old(wellKnown)
      {
        var rule := rules[i];
        LoadableNext(rules, i);
        if rule.linkTypes.NullLinkRules? {
          return false;
        }
        var links := LoadLinks(if rule.linkTypes.LinkRules? then rule.linkTypes.links else []);
        var matched := if rule.match_.Some? then rule.match_.value else Everything;
        var forwarded := if rule.forwardQuery.Some? then rule.forwardQuery.value else [];
        LoadedNext(rules, i);
        routes := routes + [Route(matched, rule.target, links, forwarded)];
      }
      assert rules[..|rules|] == rules;
      if config.validator.None? {
        return false;
      }
      validator := config.validator.value;
      wellKnown := config.wellKnown;
      loaded := true;
    }

    method ResolveParsed(r: ParseResult, full: FullMatch) returns (resolution: Option<Resolution>)
      ensures resolution == Resolve(routes, r, full)
    {
      hide FollowRoute, Matches;
      for i := 0 to |routes|
        invariant FirstMatch(routes[i..], r, full) == FirstMatch(routes, r, full)
      {
        assert routes[i..][1..] == routes[i + 1..];
        if Matches(routes[i].match_, r, full) {
          return Some(FollowRoute(routes[i], r));
        }
      }
      resolution := None;
    }
  }
}
