/** What the resolver promises of its answers: what of a path shows in them, and what canonicalising changes. */
module AppProofs {
  import opened Text
  import opened AiTable
  import opened AiTableFacts
  import opened Dict
  import opened Percent
  import opened Scanner
  import opened Url
  import opened Gtin
  import opened Parser
  import opened ParserProofs
  import opened Paths
  import opened Canonical
  import opened CanonicalProofs
  import opened CanonicalRouting
  import R = Router
  import RP = RouterProofs
  import T = Template
  import opened Linkset
  import N = Negotiate
  import C = Counters
  import opened App

  // ----- The response, case by case ----------------------------------------

  /** The URI of a request parses to this result, and its GTIN, if that is its key, has a right check digit. */
  ghost predicate Accepted(req: Request, r: ParseResult) {
    && Parse(if req.query == "" then "/" + req.path else "/" + req.path + "?" + req.query) == Parsed(r)
    && (r.primaryAi == "01" ==> ValidateGtin14(r.primaryValue))
  }

  lemma {:induction false} UriIs(req: Request)
    ensures UriOf(req) == if req.query == "" then "/" + req.path else "/" + req.path + "?" + req.query
  {
    Concat3("/" + req.path, "?", req.query);
    assert ("/" + req.path) + "" == "/" + req.path;
  }

  lemma {:induction false} AcceptedIs(req: Request, r: ParseResult)
    ensures Accepted(req, r) <==> Parse(UriOf(req)) == Parsed(r) && !BadGtin(r)
  {
    UriIs(req);
    hide Parse, ValidateGtin14, UriOf, GoodPlaces;
    if Parse(UriOf(req)) == Parsed(r) {
      ParseWellFormed(UriOf(req));
    }
  }

  /** The statuses of the answers. */
  lemma {:induction false} StatusIs(response: Response)
    ensures Status(response) in {200, 302, 400, 404, 500}
    ensures Status(response) == 200 <==> response.Document?
    ensures Status(response) == 302 <==> response.Redirect?
    ensures Status(response) == 400 <==> response.Failure? && response.problem != NoRoute
    ensures Status(response) == 404 <==> response == Failure(NoRoute)
    ensures Status(response) == 500 <==> response == Raised
  {
  }

  /** When a request is not answered with a link: each way if and only if. */
  lemma {:induction false} FailsExactly(req: Request, env: Environment)
    ensures forall error :: Respond(req, env) == Failure(Unparsed(error)) <==> Parse(UriOf(req)) == Refused(error)
    ensures forall g :: Respond(req, env) == Failure(BadCheckDigit(g)) <==>
      exists r :: Parse(UriOf(req)) == Parsed(r) && r.primaryAi == "01" && r.primaryValue == g && !ValidateGtin14(g)
    ensures Respond(req, env) == Raised <==> env.routes == None && exists r :: Accepted(req, r)
    ensures Respond(req, env) == Failure(NoRoute) <==>
      exists r :: Accepted(req, r) && env.routes.Some?
        && forall i :: 0 <= i < |env.routes.value| ==> !R.Matches(env.routes.value[i].match_, r, env.full)
  {
    hide Parse, R.Resolve, R.Matches, ValidateGtin14, UriOf, BuildLinkset, DefaultLinkHref, N.SelectMediaType, Accepted;
    if Parse(UriOf(req)).Parsed? {
      var r := Parse(UriOf(req)).result;
      AcceptedIs(req, r);
      SomeKeyValue(UriOf(req));
      if env.routes.Some? {
        RP.FirstMatchFollowed(env.routes.value, r, env.full);
      }
    }
    forall r | Accepted(req, r) ensures Parse(UriOf(req)) == Parsed(r) && !BadGtin(r) {
      AcceptedIs(req, r);
    }
  }

  lemma {:induction false} SomeKeyValue(uri: string)
    ensures Parse(uri).Parsed? ==> Parse(uri).result.primaryValue != ""
  {
    hide Parse, GoodPlaces;
    ParseWellFormed(uri);
  }

  /** A request that is accepted and has a route. */
  ghost predicate Routed(req: Request, r: ParseResult, res: R.Resolution, env: Environment) {
    Accepted(req, r) && env.routes.Some? && R.Resolve(env.routes.value, r, env.full) == Some(res)
  }

  /**
   * When a request is answered, and with what: exactly the requests that are accepted and have a route are; those that
   * choose HTML are redirected to the preferred link, and the others get a link-set of the media type they choose.
   */
  lemma {:induction false} AnswersExactly(req: Request, env: Environment)
    ensures forall location :: Respond(req, env) == Redirect(location) <==>
      exists r, res :: Routed(req, r, res, env) && N.SelectMediaType(req.accept, env.number) == "text/html"
        && location == RedirectOf(res, r.linkType)
    ensures Respond(req, env).Document? <==>
      exists r, res :: Routed(req, r, res, env) && N.SelectMediaType(req.accept, env.number) != "text/html"
    ensures Respond(req, env).Document? ==> Respond(req, env).mediaType == N.SelectMediaType(req.accept, env.number)
  {
    hide Parse, R.Resolve, ValidateGtin14, UriOf, BuildLinkset, DefaultLinkHref, N.SelectMediaType, Preferred, Accepted;
    if Parse(UriOf(req)).Parsed? {
      var r := Parse(UriOf(req)).result;
      AcceptedIs(req, r);
      if env.routes.Some? && R.Resolve(env.routes.value, r, env.full).Some? {
        var res := R.Resolve(env.routes.value, r, env.full).value;
        DefaultHref(req.url, res.links, r.linkType, Payload(env.validate(r, res.target)));
        assert !BadGtin(r) ==> Routed(req, r, res, env);
      }
    }
    forall r, res | Routed(req, r, res, env)
      ensures Parse(UriOf(req)) == Parsed(r) && !BadGtin(r)
    {
      AcceptedIs(req, r);
    }
  }

  /**
   * The document of a request, key by key: the request's URL as its anchor, each link of the route under its relation
   * or those of the requested relation alone, and the validator's report unless it has no profile.
   */
  lemma {:induction false} DocumentExactly(
    req: Request, env: Environment, r: ParseResult, res: R.Resolution, mediaType: string, d: Dict<Field<Report>>,
    k: string)
    requires Routed(req, r, res, env) && Respond(req, env) == Document(mediaType, d)
    ensures var report := env.validate(r, res.target);
      var listed := if Narrowed(res.links, r.linkType) && k != ExpandRel(r.linkType.value) then []
                    else ListedUnder(res.links, k);
      Get(d, k) ==
        if k == "gs1:validationStatus" then
          (if res.links != [] && report.profile != "" then Some(Validation(report)) else None)
        else if listed != [] then Some(Links(listed))
        else if k == "anchor" then Some(Anchor(req.url))
        else None
  {
    hide Parse, R.Resolve, ValidateGtin14, UriOf, BuildLinkset, DefaultLinkHref, N.SelectMediaType, ListedUnder,
      Narrowed, ExpandRel, Get, Accepted;
    AcceptedIs(req, r);
    var payload := Payload(env.validate(r, res.target));
    if res.links == [] {
      NothingListed(k);
      EmptyLinkset(req.url, r.linkType, payload, k);
    } else {
      ListedExactly(req.url, res.links, r.linkType, payload, k);
    }
  }

  lemma {:induction false} NothingListed(k: string)
    ensures ListedUnder([], k) == []
  {
  }

  lemma {:induction false} EmptyLinkset(anchor: string, requested: Option<string>, payload: Option<Report>, k: string)
    ensures Get(BuildLinkset(anchor, [], requested, payload), k) == if k == "anchor" then Some(Anchor(anchor)) else None
    ensures "anchor" != "gs1:validationStatus"
  {
    GetOne(ANCHOR, Field<Report>.Anchor(anchor), k);
    assert "anchor"[0] != "gs1:validationStatus"[0];
  }

  // ----- What the counters tell of validation and of time ------------------

  /** A request that is answered, and on which the validator reports this verdict. */
  ghost predicate Reports(req: Request, env: Environment, ok: bool) {
    exists r, res :: Routed(req, r, res, env)
      && env.validate(r, res.target).profile != "" && env.validate(r, res.target).ok == ok
  }

  ghost function Reported(served: seq<(Request, real)>, env: Environment, ok: bool): nat {
    if served == [] then 0
    else Reported(served[..|served| - 1], env, ok) + (if Reports(served[|served| - 1].0, env, ok) then 1 else 0)
  }

  /** The time spent on requests that no exception ended. */
  function TimeSpent(served: seq<(Request, real)>, env: Environment): real {
    if served == [] then 0.0
    else
      TimeSpent(served[..|served| - 1], env)
      + (if Respond(served[|served| - 1].0, env) == Raised then 0.0 else served[|served| - 1].1)
  }

  lemma {:induction false} DurationsAppend(a: seq<C.Op>, b: seq<C.Op>)
    ensures C.Durations(a + b) == C.Durations(a) + C.Durations(b)
  {
    if b == [] {
      assert a + b == a;
    } else {
      assert (a + b)[..|a + b| - 1] == a + b[..|b| - 1];
      DurationsAppend(a, b[..|b| - 1]);
    }
  }

  /** The validations of a request: one of the verdict reported, if one is. */
  lemma {:induction false} ValidationsAre(req: Request, env: Environment, ok: bool)
    ensures Reports(req, env, ok) <==> Validations(req, env) == [C.Op.RecordValidation(ok)]
    ensures !Reports(req, env, true) && !Reports(req, env, false) ==> Validations(req, env) == []
    ensures Respond(req, env) == Raised ==> Validations(req, env) == []
  {
    hide Parse, R.Resolve, ValidateGtin14, UriOf, Accepted, BuildLinkset, DefaultLinkHref, N.SelectMediaType;
    if Parse(UriOf(req)).Parsed? {
      var r := Parse(UriOf(req)).result;
      AcceptedIs(req, r);
      if !BadGtin(r) && env.routes.Some? && R.Resolve(env.routes.value, r, env.full).Some? {
        var res := R.Resolve(env.routes.value, r, env.full).value;
        assert Routed(req, r, res, env);
      }
    }
    forall r, res | Routed(req, r, res, env)
      ensures Parse(UriOf(req)) == Parsed(r) && !BadGtin(r)
    {
      AcceptedIs(req, r);
    }
  }

  lemma {:induction false} CallsCounted(req: Request, env: Environment, duration: real, ok: bool)
    ensures C.Count(Calls(req, env, duration), C.IsVerdict(if ok then "true" else "false"))
      == (if Reports(req, env, ok) then 1 else 0)
    ensures C.Durations(Calls(req, env, duration)) == (if Respond(req, env) == Raised then 0.0 else duration)
  {
    hide Respond, Reports, Validations;
    ValidationsAre(req, env, ok);
    ValidationsAre(req, env, !ok);
    var key := if ok then "true" else "false";
    OneVerdict(key, true, ok);
    OneVerdict(key, false, ok);
    if Respond(req, env) != Raised {
      var first, last := Validations(req, env), [C.Op.RecordRequest(OutcomeOf(Respond(req, env)), duration)];
      CountAppend(first, last, C.IsVerdict(key));
      DurationsAppend(first, last);
      assert last[..0] == [];
    }
  }

  lemma {:induction false} OneVerdict(key: string, verdict: bool, ok: bool)
    requires key == if ok then "true" else "false"
    ensures C.Count([C.Op.RecordValidation(verdict)], C.IsVerdict(key)) == if verdict == ok then 1 else 0
    ensures C.Durations([C.Op.RecordValidation(verdict)]) == 0.0
    ensures C.Count([], C.IsVerdict(key)) == 0 && C.Durations([]) == 0.0
  {
    var calls := [C.Op.RecordValidation(verdict)];
    assert calls[..0] == [];
    assert "true"[0] != "false"[0];
  }

  lemma {:induction false} AllCallsCounted(served: seq<(Request, real)>, env: Environment, ok: bool)
    ensures C.Count(AllCalls(served, env), C.IsVerdict(if ok then "true" else "false")) == Reported(served, env, ok)
    ensures C.Durations(AllCalls(served, env)) == TimeSpent(served, env)
  {
    hide Respond, Calls, Reports;
    if served == [] {
    } else {
      var before, last := served[..|served| - 1], served[|served| - 1];
      AllCallsCounted(before, env, ok);
      CallsCounted(last.0, env, last.1, ok);
      CountAppend(AllCalls(before, env), Calls(last.0, env, last.1), C.IsVerdict(if ok then "true" else "false"));
      DurationsAppend(AllCalls(before, env), Calls(last.0, env, last.1));
    }
  }

  /**
   * After a new service has served any list of requests, each verdict counter is the number of requests answered on
   * which the validator reported that verdict, and the latency sum is the time spent on requests no exception ended.
   */
  lemma {:induction false} CountersTellReports(served: seq<(Request, real)>, env: Environment)
    ensures var c := CountersAfter(C.ZERO, served, env);
      && GetOr(c.validations, "true", 0) == Reported(served, env, true)
      && GetOr(c.validations, "false", 0) == Reported(served, env, false)
      && c.latencySum == TimeSpent(served, env)
  {
    hide C.Replay, AllCalls, C.Count, Get, CountersAfter, Reported, TimeSpent;
    ServedReplay(served, env);
    C.ReplayCounts(AllCalls(served, env), "true");
    C.ReplayCounts(AllCalls(served, env), "false");
    AllCallsCounted(served, env, true);
    AllCallsCounted(served, env, false);
  }

  // ----- What of a path shows in its response ------------------------------

  /** The request for a path of segments. */
  function PathRequest(segs: seq<Segment>, query: string, accept: string, url: string): Request
    requires segs != []
  {
    Request(Render(segs)[1..], query, accept, url)
  }

  function Suffix(query: string): string {
    if query != "" then "?" + query else ""
  }

  lemma UriOfPath(segs: seq<Segment>, query: string, accept: string, url: string)
    requires segs != []
    ensures UriOf(PathRequest(segs, query, accept, url)) == PathUri(None, segs, Suffix(query))
  {
    var path := Render(segs);
    assert path[0] == '/' && path == "/" + path[1..];
    NoOrigin(path + Suffix(query));
  }

  /**
   * From request to response, AIs repeated or not: two requests with the same query, the same key and the same last
   * value of every other known AI get the same response, apart from the anchor and what the validator reports.
   */
  lemma {:induction false} ResponseSeesLastValues(
    env: Environment, segs: seq<Segment>, segs': seq<Segment>, query: string, accept: string, url: string, url': string)
    requires env.routes.Some? ==> forall i :: 0 <= i < |env.routes.value| ==> RP.RouteReadable(env.routes.value[i])
    requires IsPathUri(None, segs, Suffix(query)) && FirstPrimary(segs) < |segs|
    requires IsPathUri(None, segs', Suffix(query)) && FirstPrimary(segs') < |segs'|
    requires segs[FirstPrimary(segs)] == segs'[FirstPrimary(segs')] && SameLastValues(segs, segs')
    requires T.Settled(R.AsDict(Placed(segs, SuffixQuery(Suffix(query)))))
    ensures SameApart(
      Respond(PathRequest(segs, query, accept, url), env), Respond(PathRequest(segs', query, accept, url'), env),
        {STATUS, ANCHOR})
  {
    var suffix := Suffix(query);
    UriOfPath(segs, query, accept, url);
    UriOfPath(segs', query, accept, url');
    hide RP.RouteReadable, IsPathUri, PathUri, Parse, RespondTo, SameApart, Suffix, Placed, R.Resolve, SameIdentity,
      UriOf, SameLastValues, FirstPrimary, T.Settled, R.AsDict, SuffixQuery;
    ParsePlaced(None, segs, suffix);
    ParsePlaced(None, segs', suffix);
    SamePlaced(segs, segs', SuffixQuery(suffix));
    if env.routes.Some? {
      RP.RoutingSeesLastValues(env.routes.value, env.full, None, None, segs, segs', suffix);
    }
    var req, req' := PathRequest(segs, query, accept, url), PathRequest(segs', query, accept, url');
    SameResponse(Parse(UriOf(req)), Parse(UriOf(req')), req, req', env, env, {STATUS, ANCHOR});
  }

  /**
   * The order of segments does not show in the response: two requests whose segments are permutations of each other,
   * with distinct AIs and one primary key, get the same one, apart from the anchor and what the validator reports.
   */
  lemma ResponseIgnoresSegmentOrder(
    env: Environment, segs: seq<Segment>, segs': seq<Segment>, query: string, accept: string, url: string, url': string)
    requires env.routes.Some? ==> forall i :: 0 <= i < |env.routes.value| ==> RP.RouteReadable(env.routes.value[i])
    requires multiset(segs) == multiset(segs') && DistinctAis(segs) && OnePrimary(segs)
    requires IsPathUri(None, segs, Suffix(query))
    requires
      || T.Settled(R.AsDict(Placed(segs, SuffixQuery(Suffix(query)))))
      || forall i :: 0 <= i < |segs| ==> '{' !in segs[i].1
    ensures segs' != []
    ensures SameApart(
      Respond(PathRequest(segs, query, accept, url), env), Respond(PathRequest(segs', query, accept, url'), env),
        {STATUS, ANCHOR})
  {
    PermutedParse(None, segs, segs', Suffix(query));
    if forall i :: 0 <= i < |segs| ==> '{' !in segs[i].1 {
      RP.PlainSettled(segs, SuffixQuery(Suffix(query)));
    }
    hide RP.RouteReadable, DistinctAis, IsPathUri, SameApart, Suffix, SameLastValues, T.Settled, R.AsDict, Respond;
    ResponseSeesLastValues(env, segs, segs', query, accept, url, url');
  }

  /**
   * From request to response, for spellings: each AI written as its number or as its name in any letter case gets
   * the same response, apart from the anchor.
   */
  lemma {:induction false} ResponseIgnoresSpelling(
    env: Environment, segs: seq<Segment>, tokens: seq<string>, query: string, accept: string, url: string, url': string)
    requires segs != [] && |tokens| == |segs|
    requires forall i :: 0 <= i < |segs| ==>
      IsKnown(segs[i].0) && Spells(tokens[i], segs[i].0) && InSegment(segs[i].1)
    requires |Render(segs) + Suffix(query)| <= MAX_URI_LENGTH
    requires |Render(Respell(segs, tokens)) + Suffix(query)| <= MAX_URI_LENGTH
    ensures SameApart(
      Respond(PathRequest(segs, query, accept, url), env),
      Respond(PathRequest(Respell(segs, tokens), query, accept, url'), env), {ANCHOR})
  {
    var spelled := Respell(segs, tokens);
    NoOrigin(Render(segs) + Suffix(query));
    NoOrigin(Render(spelled) + Suffix(query));
    assert Suffix(query) == "" || Suffix(query)[0] in "?#";
    UriOfPath(segs, query, accept, url);
    UriOfPath(spelled, query, accept, url');
    hide IsKnown, Spells, InSegment, Parse, Render, RespondTo, SameApart, Suffix, Origin, R.Resolve, SameIdentity,
      UriOf, Respell;
    AlphaMeansNumeric(None, segs, tokens, Suffix(query));
    var req, req' := PathRequest(segs, query, accept, url), PathRequest(spelled, query, accept, url');
    SameResponse(Parse(UriOf(req)), Parse(UriOf(req')), req, req', env, env, {ANCHOR});
  }

  // ----- A second GTIN -----------------------------------------------------

  /** The path of two GTIN segments. */
  function TwoGtins(g: string, v: string): seq<Segment> {
    [("01", g), ("01", v)]
  }

  lemma TwoGtinsPlaced(g: string, v: string)
    ensures FirstPrimary(TwoGtins(g, v)) == 0 && LastValue(TwoGtins(g, v)[1..], "01") == Some(v)
    ensures Render(TwoGtins(g, v))[0] == '/' && NameOf("01") == "gtin" && T.Placeholder("gtin") == "{gtin}"
    ensures |TwoGtins(g, v)| == 2 && TwoGtins(g, v)[0] == ("01", g) && TwoGtins(g, v)[1] == ("01", v)
  {
    SomeRows();
    SomePrimaries();
    hide IsPrimary, SpecOf;
    assert TwoGtins(g, v)[1..] == [("01", v)];
  }

  lemma GtinIsPath(g: string)
    requires ValidateGtin14(g)
    ensures PathSegment(("01", g)) && '{' !in g
  {
    assert forall i :: 0 <= i < |g| ==> IsDigit(g[i]);
  }

  lemma TwoGtinsRouted(g: string, v: string, full: R.FullMatch)
    requires ValidateGtin14(g) && PathSegment(("01", v)) && '{' !in v && |Render(TwoGtins(g, v))| <= MAX_URI_LENGTH
    ensures FirstPrimary(TwoGtins(g, v)) == 0
    ensures var r := Placed(TwoGtins(g, v), "");
      && Parse(Render(TwoGtins(g, v))) == Parsed(r) && (r.primaryAi, r.primaryValue) == ("01", g)
      && R.Resolve([R.Route(R.Everything, "{gtin}", [], [])], r, full) == Some(R.Resolution(v, []))
  {
    var segs := TwoGtins(g, v);
    hide PathSegment, Parse, Render, ValidateGtin14, NameOf, LastValue, FirstPrimary, Placed, R.Resolve, TwoGtins,
      T.Placeholder;
    GtinIsPath(g);
    TwoGtinsPlaced(g, v);
    ParsePath(segs);
    KeyPlaced(segs, "");
    RP.KeyTemplateResolved(segs, "", full);
  }

  /**
   * The check digit is checked on the key and templates show the last GTIN of the path, so the two can differ: for
   * every valid GTIN-14 `g` and every value `v` without an open brace, `/01/g/01/v` passes the check, and a route to
   * `{gtin}` resolves it to `v`.
   */
  lemma CheckedAndShown(g: string, v: string, env: Environment, accept: string, url: string)
    requires ValidateGtin14(g) && PathSegment(("01", v)) && '{' !in v && |Render(TwoGtins(g, v))| <= MAX_URI_LENGTH
    requires env.routes == Some([R.Route(R.Everything, "{gtin}", [], [])])
    ensures var req := PathRequest(TwoGtins(g, v), "", accept, url); var outcome := Parse(UriOf(req));
      && outcome.Parsed? && outcome.result.primaryValue == g && !BadGtin(outcome.result)
      && R.Resolve(env.routes.value, outcome.result, env.full) == Some(R.Resolution(v, []))
      && (N.SelectMediaType(accept, env.number) == N.HTML ==> Respond(req, env) == Redirect(v))
  {
    var segs := TwoGtins(g, v);
    hide PathSegment, Parse, Render, ValidateGtin14, Placed, N.SelectMediaType, BuildLinkset, DefaultLinkHref,
      R.Resolve, UriOf;
    TwoGtinsRouted(g, v, env.full);
    UriOfPlainPath(segs, accept, url);
    DefaultHref(url, [], Placed(segs, "").linkType, Payload(env.validate(Placed(segs, ""), v)));
  }

  lemma {:induction false} UriOfPlainPath(segs: seq<Segment>, accept: string, url: string)
    requires segs != []
    ensures UriOf(PathRequest(segs, "", accept, url)) == Render(segs)
  {
    UriOfPath(segs, "", accept, url);
    NoOrigin(Render(segs) + "");
    assert Render(segs) + "" == Render(segs);
  }

  // ----- The canonical URI is answered as the URI it stands for ------------

  lemma CanonicalNotEmpty(r: ParseResult)
    ensures QuoteSegments(CanonicalSegments(r)) != []
  {
  }

  /** The request for the canonical path of a result. */
  function CanonicalRequest(r: ParseResult, accept: string, url: string): Request {
    PathRequest(QuoteSegments(CanonicalSegments(r)), "", accept, url)
  }

  lemma CanonicalRequestParsed(r: ParseResult, accept: string, url: string)
    requires WellFormed(r) && |CanonicalPath(r)| <= MAX_URI_LENGTH
    ensures Parse(UriOf(CanonicalRequest(r, accept, url))) == Parsed(Reprinted(r))
  {
    hide WellFormed, Parse, Render, CanonicalSegments, Reprinted, UriOf;
    CanonicalNotEmpty(r);
    UriOfPlainPath(QuoteSegments(CanonicalSegments(r)), accept, url);
    NoOrigin(CanonicalPath(r));
    PrintThenParse(r, None);
  }

  /** A GTIN-8, -12 or -13 with a right check digit. */
  predicate ShortGtin(s: string) {
    IsDigitString(s) && |s| in {8, 12, 13} && Passes(DigitsOf(s))
  }

  lemma {:induction false} ReservedIsNoGtin(s: string)
    requires !AllUnreserved(s)
    ensures !ValidateGtin14(s) && !ValidateGtin14(Quote(s))
  {
    hide Quote;
    ReservedShows(s);
    var i :| 0 <= i < |s| && !Unreserved(s[i]);
    assert !IsDigit(s[i]);
    var j :| 0 <= j < |Quote(s)| && Quote(s)[j] == '%';
    assert !IsDigit(Quote(s)[j]);
  }

  lemma {:induction false} ValidAsPrinted(s: string)
    ensures ValidateGtin14(Quote(s)) <==> ValidateGtin14(s)
  {
    hide Quote, ValidateGtin14, AllUnreserved;
    QuoteFixed(s);
    if !AllUnreserved(s) {
      ReservedIsNoGtin(s);
    }
  }

  lemma PadUntouched(s: string)
    ensures !(IsDigitString(s) && |s| in {8, 12, 13}) ==> PadGtin(s) == s
    ensures ValidateGtin14(s) ==> |s| == 14
    ensures IsDigitString(s) ==> s != ""
  {
    hide IsDigits;
    assert |s| == 14 ==> Zeros(0) + s == s;
  }

  lemma ValidIfPadded(s: string)
    ensures ValidateGtin14(PadGtin(s)) <==> ValidateGtin14(s) || ShortGtin(s)
    ensures ShortGtin(s) ==> s != "" && !ValidateGtin14(s)
  {
    PadUntouched(s);
    hide ValidateGtin14, Passes, DigitsOf, PadGtin, IsDigits;
    if IsDigitString(s) && |s| in {8, 12, 13} {
      PaddingPreservesCheck(s);
    }
  }

  /**
   * The check digit of a canonical URI: it is refused exactly when the URI it stands for is refused, unless that is a
   * GTIN-8, -12 or -13 with a right check digit. Such a number is refused as it stands and passes in canonical form.
   */
  lemma CheckOfCanonical(r: ParseResult)
    requires WellFormed(r)
    ensures BadGtin(Reprinted(r)) <==> BadGtin(r) && !ShortGtin(r.primaryValue)
    ensures r.primaryAi == "01" && ShortGtin(r.primaryValue) ==> BadGtin(r)
  {
    PrimaryGood(r);
    SomeValue(r);
    hide WellFormed, ValidateGtin14, Quote, PadGtin, Reprinted, AllEncoded, ShortGtin;
    KeyOfReprinted(r);
    ValidAsPrinted(PaddedPrimary(r));
    ValidIfPadded(r.primaryValue);
  }

  lemma SomeValue(r: ParseResult)
    requires WellFormed(r)
    ensures r.primaryValue != ""
  {
  }

  /**
   * Two requests are answered alike, whatever header they both send and wherever they arrive, apart from the anchor
   * and what the validator reports.
   */
  ghost predicate AnsweredAlike(req: Request, req': Request, env: Environment) {
    forall accept, url, url' ::
      SameApart(Respond(req.(accept := accept, url := url), env), Respond(req'.(accept := accept, url := url'), env),
        {STATUS, ANCHOR})
  }

  ghost predicate ReadableRoutes(env: Environment) {
    env.routes.Some? ==> AllReadable(env.routes.value)
  }

  lemma {:induction false} ValueOfFirst(pairs: Pairs)
    requires pairs != []
    ensures GetOr(Group(pairs), pairs[0].0, []) != []
  {
    hide Group, Get;
    GroupValues(pairs, pairs[0].0);
  }

  /** A parsed URI whose query has no values has no query at all. */
  lemma NoQueryParsed(uri: string)
    ensures match Parse(uri)
      case Refused(_) => true
      case Parsed(r) => NoQuery(r) ==> r.queryParams == [] && r.linkType == None
  {
    hide NormaliseAlpha, PathOf, FindAll, UrlSplit, ParseQsl, Get;
    var query := UrlSplit(uri).query;
    RP.ClassifyKeepsQuery(false, Blank(query), FindAll(NormaliseAlpha(PathOf(uri))));
    if ParseQsl(query) == [] {
      NothingGrouped();
    } else {
      ValueOfFirst(ParseQsl(query));
    }
  }

  lemma NothingGrouped()
    ensures Group<string>([]) == [] && Get<seq<string>>([], "linkType") == None
  {
  }

  lemma SameUri(req: Request, accept: string, url: string)
    ensures UriOf(req.(accept := accept, url := url)) == UriOf(req)
  {
  }

  /** Both are refused for the same GTIN, or printing loses nothing. */
  lemma AlikeWhen(req: Request, r: ParseResult, env: Environment, accept: string, url: string, url': string)
    requires Parse(UriOf(req)) == Parsed(r) && WellFormed(r) && |CanonicalPath(r)| <= MAX_URI_LENGTH
    requires ReadableRoutes(env) && PrintsKey(r) && (BadGtin(r) || PrintsWhole(r))
    ensures SameApart(
      Respond(req.(accept := accept, url := url), env), Respond(CanonicalRequest(r, accept, url'), env),
      {STATUS, ANCHOR})
  {
    hide WellFormed, Parse, Reprinted, UriOf, R.Resolve, SameApart, CanonicalRequest, ValidateGtin14, SameIdentity,
      PrintsKey, PrintsWhole, Answer, CanonicalPath;
    var one, other := req.(accept := accept, url := url), CanonicalRequest(r, accept, url');
    CanonicalRequestParsed(r, accept, url');
    CanonicalRequestSends(r, accept, url');
    SameUri(req, accept, url);
    KeyOfReprinted(r);
    if BadGtin(r) {
      SameFailure(BadCheckDigit(r.primaryValue), {STATUS, ANCHOR});
    } else {
      NoQueryOf(r);
      NoQueryParsed(UriOf(req));
      ReprintedSame(r);
      SameBack(r);
      if env.routes.Some? {
        RoutedAlike(r, env.routes.value, env.full);
      }
      SameResponse(Parsed(r), Parsed(Reprinted(r)), one, other, env, env, {STATUS, ANCHOR});
    }
  }

  lemma CanonicalRequestSends(r: ParseResult, accept: string, url: string)
    ensures CanonicalRequest(r, accept, url).accept == accept
  {
  }

  lemma KeyOfReprinted(r: ParseResult)
    ensures Reprinted(r).primaryAi == r.primaryAi && Reprinted(r).primaryValue == Quote(PaddedPrimary(r))
    ensures PrintsKey(r) <==> Reprinted(r).primaryValue == r.primaryValue
    ensures Reprinted(r).linkType == None
  {
    hide Quote, PrintsKey;
    KeyAsPrinted(r);
  }

  lemma SameBack(r: ParseResult)
    requires r.queryParams == [] && SameIdentity(Reprinted(r), r.(queryParams := []))
    ensures SameIdentity(r, Reprinted(r))
  {
    hide Reprinted, Get;
  }

  /** A route without links sends a browser to its target. */
  lemma PlainRoute(req: Request, r: ParseResult, res: R.Resolution, env: Environment)
    requires res.links == [] && N.SelectMediaType(req.accept, env.number) == N.HTML
    ensures Answer(req, r, res, env) == Redirect(res.target)
  {
    hide N.SelectMediaType, BuildLinkset, DefaultLinkHref;
    DefaultHref(req.url, res.links, r.linkType, Payload(env.validate(r, res.target)));
  }

  lemma RouteWithoutLinks(route: R.Route, r: ParseResult, full: R.FullMatch)
    requires route.linkTypes == []
    ensures R.Resolve([route], r, full).Some? ==> R.Resolve([route], r, full).value.links == []
  {
    hide R.AsDict, R.AppendQuery, T.Fill, R.Forwarded, R.Matches;
    assert R.FirstMatch([route], r, full) == if R.Matches(route.match_, r, full) then Some(route) else None;
  }

  /** A route that tells two results apart tells a browser apart that asks for them, unless both are refused. */
  lemma ToldApart(req: Request, req': Request, a: ParseResult, b: ParseResult, route: R.Route, env: Environment)
    requires req.accept == req'.accept && N.SelectMediaType(req.accept, env.number) == N.HTML
    requires env.routes == Some([route]) && route.linkTypes == [] && !BadGtin(a)
    requires R.Resolve([route], b, env.full) != R.Resolve([route], a, env.full)
    ensures !SameApart(RespondTo(Parsed(a), req, env), RespondTo(Parsed(b), req', env), {STATUS, ANCHOR})
  {
    hide R.Resolve, N.SelectMediaType, Answer, BadGtin;
    RouteWithoutLinks(route, a, env.full);
    RouteWithoutLinks(route, b, env.full);
    if R.Resolve([route], a, env.full).Some? {
      PlainRoute(req, a, R.Resolve([route], a, env.full).value, env);
    }
    if R.Resolve([route], b, env.full).Some? {
      PlainRoute(req', b, R.Resolve([route], b, env.full).value, env);
    }
  }

  /** Where the condition fails, some configuration with one route answers the two requests differently. */
  lemma ToldByRoute(req: Request, r: ParseResult) returns (env: Environment)
    requires Parse(UriOf(req)) == Parsed(r) && WellFormed(r) && |CanonicalPath(r)| <= MAX_URI_LENGTH
    requires !(PrintsKey(r) && (BadGtin(r) || PrintsWhole(r)))
    ensures ReadableRoutes(env) && !AnsweredAlike(req, CanonicalRequest(r, "", ""), env)
  {
    var full: R.FullMatch, number: N.Number := (p, t) => false, t => None;
    var one, other := req.(accept := N.HTML, url := ""), CanonicalRequest(r, "", "").(accept := N.HTML, url := "");
    hide WellFormed, Parse, Reprinted, UriOf, R.Resolve, SameApart, CanonicalRequest, BadGtin, RP.RouteReadable,
      PrintsKey, PrintsWhole, CanonicalPath, N.HTML, N.SelectMediaType, Answer;
    CanonicalRequestParsed(r, "", "");
    SameUri(req, N.HTML, "");
    SameUri(CanonicalRequest(r, "", ""), N.HTML, "");
    KeyOfReprinted(r);
    N.HtmlChosen(number);
    if BadGtin(r) {
      env := Environment(None, full, number, NO_VALIDATION);
      RefusedOtherwise(r, Reprinted(r), one, other, env);
    } else {
      PrintsWholeKey(r);
      var route := TellingRoute(r, full);
      env := Environment(Some([route]), full, number, NO_VALIDATION);
      ToldApart(one, other, r, Reprinted(r), route, env);
    }
    assert !SameApart(Respond(one, env), Respond(other, env), {STATUS, ANCHOR});
  }

  lemma PrintsWholeKey(r: ParseResult)
    ensures PrintsWhole(r) ==> PrintsKey(r)
  {
  }

  lemma RefusedOtherwise(a: ParseResult, b: ParseResult, req: Request, req': Request, env: Environment)
    requires BadGtin(a) && a.primaryValue != b.primaryValue
    ensures !SameApart(RespondTo(Parsed(a), req, env), RespondTo(Parsed(b), req', env), {STATUS, ANCHOR})
  {
    hide BadGtin, R.Resolve, BuildLinkset, DefaultLinkHref, N.SelectMediaType;
  }

  /**
   * When a canonical URI is answered as the URI it stands for, by every service with readable routes and for every
   * header, apart from the anchor and what the validator reports: exactly when the key is printed as it is, and
   * either both are refused for its check digit or printing loses nothing.
   */
  lemma CanonicalAnsweredAlike(req: Request)
    ensures match Parse(UriOf(req))
      case Refused(_) => true
      case Parsed(r) => |CanonicalPath(r)| <= MAX_URI_LENGTH ==>
        ((forall env :: ReadableRoutes(env) ==> AnsweredAlike(req, CanonicalRequest(r, "", ""), env))
         <==> PrintsKey(r) && (BadGtin(r) || PrintsWhole(r)))
  {
    hide WellFormed, Parse, UriOf, CanonicalRequest, BadGtin, ReadableRoutes, AnsweredAlike, PrintsKey, PrintsWhole,
      CanonicalPath;
    if Parse(UriOf(req)).Parsed? && |CanonicalPath(Parse(UriOf(req)).result)| <= MAX_URI_LENGTH {
      var r := Parse(UriOf(req)).result;
      ParseWellFormed(UriOf(req));
      if PrintsKey(r) && (BadGtin(r) || PrintsWhole(r)) {
        forall env | ReadableRoutes(env) ensures AnsweredAlike(req, CanonicalRequest(r, "", ""), env) {
          AlwaysAlike(req, r, env);
        }
      } else {
        var env := ToldByRoute(req, r);
      }
    }
  }

  lemma AlwaysAlike(req: Request, r: ParseResult, env: Environment)
    requires Parse(UriOf(req)) == Parsed(r) && WellFormed(r) && |CanonicalPath(r)| <= MAX_URI_LENGTH
    requires ReadableRoutes(env) && PrintsKey(r) && (BadGtin(r) || PrintsWhole(r))
    ensures AnsweredAlike(req, CanonicalRequest(r, "", ""), env)
  {
    hide WellFormed, Parse, UriOf, SameApart, BadGtin, ReadableRoutes, PrintsKey, PrintsWhole, CanonicalPath, Respond;
    forall accept, url, url'
      ensures SameApart(
        Respond(req.(accept := accept, url := url), env),
        Respond(CanonicalRequest(r, "", "").(accept := accept, url := url'), env), {STATUS, ANCHOR})
    {
      AlikeWhen(req, r, env, accept, url, url');
      assert CanonicalRequest(r, "", "").(accept := accept, url := url') == CanonicalRequest(r, accept, url');
    }
  }

  lemma GtinSegment(g: string)
    requires IsDigitString(g)
    ensures PathSegment(("01", g))
  {
    assert forall i :: 0 <= i < |g| ==> IsDigit(g[i]);
  }

  /** The result of a path that is a key and nothing else. */
  lemma KeyAlone(g: string)
    requires IsDigitString(g) && |g| <= 14
    ensures FirstPrimary([("01", g)]) == 0
    ensures var r := Placed([("01", g)], "");
      && (r.primaryAi, r.primaryValue) == ("01", g) && r.qualifiers == [] && r.attributes == []
      && WellFormed(r) && Parse(Render([("01", g)])) == Parsed(r)
  {
    var segs: seq<Segment> := [("01", g)];
    SomePrimaries();
    GtinSegment(g);
    assert |Render(segs)| == 4 + |g| by { assert segs[1..] == [] && Render(segs[1..]) == ""; }
    hide IsPrimary, PathSegment, Parse, Render, WellFormed, KindOf;
    assert Others(segs) == [] by { assert segs[..0] + segs[1..] == []; }
    PlacedWellFormed(segs, "");
    KeyPlaced(segs, "");
    ParsePath(segs);
  }

  lemma ShortPath(r: ParseResult)
    requires r.primaryAi == "01" && r.qualifiers == [] && r.attributes == [] && WellFormed(r)
    requires IsDigitString(r.primaryValue) && |r.primaryValue| <= 14
    ensures |CanonicalPath(r)| <= MAX_URI_LENGTH
  {
    hide WellFormed, Quote, CanonicalSegments, IsDigitString;
    NoKeysUnique();
    EmissionOrders(r);
    DigitsStay(r.primaryValue);
    var segs := QuoteSegments(CanonicalSegments(r));
    assert segs == [("01", Quote(PaddedPrimary(r)))];
    assert segs[1..] == [] && Render(segs[1..]) == "";
  }

  lemma NoKeysUnique()
    ensures Unique<string>([])
  {
  }

  lemma DigitsStay(s: string)
    requires IsDigitString(s) && |s| <= 14
    ensures Quote(PadGtin(s)) == PadGtin(s) && |PadGtin(s)| <= 14
  {
    var t := PadGtin(s);
    assert forall i :: 0 <= i < |t| ==> IsDigit(t[i]);
    assert AllUnreserved(t);
    hide Quote;
    QuoteFixed(t);
  }

  /** A GTIN-8, -12 or -13 with a right check digit is refused, and its canonical URI passes the check. */
  lemma ShortGtinRefused(g: string, env: Environment, accept: string, url: string)
    requires ShortGtin(g)
    ensures FirstPrimary([("01", g)]) == 0
    ensures var r := Placed([("01", g)], ""); var req := PathRequest([("01", g)], "", accept, url);
      var canonical := Parse(UriOf(CanonicalRequest(r, accept, url)));
      && Parse(UriOf(req)) == Parsed(r) && Respond(req, env) == Failure(BadCheckDigit(g))
      && canonical.Parsed? && !BadGtin(canonical.result)
  {
    assert |g| <= 14 && IsDigitString(g);
    hide Parse, UriOf, Placed, WellFormed, Render, CanonicalRequest, Reprinted, BadGtin, CanonicalPath, IsDigitString,
      ShortGtin, FirstPrimary;
    KeyAlone(g);
    var r := Placed([("01", g)], "");
    ShortPath(r);
    UriOfPlainPath([("01", g)], accept, url);
    CanonicalRequestParsed(r, accept, url);
    CheckOfCanonical(r);
  }
}
