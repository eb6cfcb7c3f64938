/** The HTTP resolver: the decisions `resolve` takes, what it answers and what it counts. */
module App {
  import opened Text
  import opened Dict
  import opened Gtin
  import opened Parser
  import opened Paths
  import R = Router
  import opened Linkset
  import N = Negotiate
  import C = Counters
  import M = Metrics

  datatype Request = Request(path: string, query: string, accept: string, url: string)

  /** `ValidationResult`. */
  datatype Report = Report(ok: bool, profile: string, errors: seq<string>, warnings: seq<string>)

  /** `validator.validate(parsed, target).as_dict()`: any total function. */
  type Validator = (ParseResult, string) -> Report

  /** `NoOpValidator`. */
  const NO_VALIDATION: Validator := (_, _) => Report(true, "", [], [])

  datatype Problem = Unparsed(error: ParseError) | BadCheckDigit(gtin: string) | NoRoute

  /** `Raised` is an exception that leaves the handler: the configuration does not load. */
  datatype Response =
    | Raised
    | Failure(problem: Problem)
    | Redirect(location: string)
    | Document(mediaType: string, linkset: Dict<Field<Report>>)

  function Status(r: Response): int {
    match r
    case Failure(NoRoute) => 404
    case Failure(_) => 400
    case Redirect(_) => 302
    case Document(_, _) => 200
    case Raised => 500
  }

  /**
   * What surrounds the decisions: the routes and the validator, if the configuration loads, and the functions that
   * are not part of the model.
   */
  datatype Environment =
    Environment(routes: Option<seq<R.Route>>, full: R.FullMatch, number: N.Number, validate: Validator)

  type Config = R.Config<Validator, Dict<string>>

  function EnvironmentOf(config: Config, full: R.FullMatch, number: N.Number): Environment {
    if R.Loads(config) then Environment(Some(R.LoadedRoutes(config.rules)), full, number, config.validator.value)
    else Environment(None, full, number, NO_VALIDATION)
  }

  /** The URI that is parsed: `/` and the path, and the query when there is one. */
  function UriOf(req: Request): string {
    "/" + req.path + (if req.query != "" then "?" + req.query else "")
  }

  /** `validation if validation.get("profile") else None`. */
  function Payload(report: Report): Option<Report> {
    if report.profile != "" then Some(report) else None
  }

  /** The answer to a URI that parses and has a route. */
  function Answer(req: Request, r: ParseResult, route: R.Resolution, env: Environment): Response {
    var chosen := N.SelectMediaType(req.accept, env.number);
    var payload := Payload(env.validate(r, route.target));
    var entry := BuildLinkset(req.url, route.links, r.linkType, payload);
    if chosen == N.HTML then Redirect(DefaultLinkHref(entry).GetOr(route.target)) else Document(chosen, entry)
  }

  /** `parsed.gtin and not validate_gtin14(parsed.gtin)`. */
  predicate BadGtin(r: ParseResult) {
    r.primaryAi == "01" && r.primaryValue != "" && !ValidateGtin14(r.primaryValue)
  }

  /** The response to a request, once its URI is parsed or refused. */
  function RespondTo(outcome: Outcome, req: Request, env: Environment): Response {
    match outcome
    case Refused(error) => Failure(Unparsed(error))
    case Parsed(r) =>
      if BadGtin(r) then Failure(BadCheckDigit(r.primaryValue))
      else if env.routes.None? then Raised
      else match R.Resolve(env.routes.value, r, env.full)
        case None => Failure(NoRoute)
        case Some(route) => Answer(req, r, route, env)
  }

  /** The response to a request. */
  function Respond(req: Request, env: Environment): Response {
    RespondTo(Parse(UriOf(req)), req, env)
  }

  /** What a request that is answered is counted as. */
  function OutcomeOf(r: Response): string
    requires !r.Raised?
  {
    match r
    case Failure(NoRoute) => "not_found"
    case Failure(_) => "bad_request"
    case Redirect(_) => "redirect"
    case Document(_, _) => "resolved"
  }

  /**
   * The metrics calls of a request, in order: a validation, where a validator reported, then the request itself; none
   * where an exception leaves the handler.
   */
  function Calls(req: Request, env: Environment, duration: real): seq<C.Op> {
    var response := Respond(req, env);
    if response.Raised? then []
    else Validations(req, env) + [C.Op.RecordRequest(OutcomeOf(response), duration)]
  }

  function Validations(req: Request, env: Environment): seq<C.Op> {
    match Parse(UriOf(req))
    case Refused(_) => []
    case Parsed(r) =>
      match (if BadGtin(r) || env.routes.None? then None else R.Resolve(env.routes.value, r, env.full))
      case None => []
      case Some(route) =>
        match Payload(env.validate(r, route.target))
        case None => []
        case Some(report) => [C.Op.RecordValidation(report.ok)]
  }

  /** The counters after these calls. */
  function AfterCalls(c: C.Counters, calls: seq<C.Op>): C.Counters
    decreases calls
  {
    if calls == [] then c else AfterCalls(C.Effect(c, calls[0]), calls[1..])
  }

  class Service {
    const config: Config
    const env: Environment
    const metrics: M.Metrics
    var router: R.Router?<Validator, Dict<string>>

    /** A router, once there is one, has the routes and the validator of the configuration. */
    ghost predicate Valid()
      reads this, router
    {
      && env == EnvironmentOf(config, env.full, env.number)
      && (router != null ==> R.Loads(config) && env.routes == Some(router.routes) && env.validate == router.validator)
    }

    constructor (config: Config, full: R.FullMatch, number: N.Number, metrics: M.Metrics)
      ensures Valid() && this.config == config && env == EnvironmentOf(config, full, number)
      ensures this.metrics == metrics && router == null
    {
      this.config, this.env := config, EnvironmentOf(config, full, number);
      this.metrics, this.router := metrics, null;
    }

    /**
     * The router, loaded from the configuration when it is first asked for; `null` stands for the exception of a
     * configuration that does not load, which is tried again the next time.
     */
    method GetRouter() returns (r: R.Router?<Validator, Dict<string>>)
      requires Valid()
      modifies this`router
      ensures Valid() && r == router && (r != null <==> R.Loads(config))
      ensures env.routes == if r != null then Some(r.routes) else None
      ensures r != null ==> env.validate == r.validator
      ensures old(router) != null ==> r == old(router)
      ensures old(router) == null && r != null ==> fresh(r)
    {
      if router == null {
        var loading := new R.Router<Validator, Dict<string>>(NO_VALIDATION, []);
        var loaded := loading.Load(config);
        if !loaded {
          return null;
        }
        router := loading;
      }
      r := router;
    }

    /** One request; `duration` is what the clock gives when the request is recorded. */
    method Resolve(req: Request, duration: real) returns (response: Response)
      requires Valid()
      modifies this`router, metrics`requests, metrics`validations, metrics`latencySum, metrics`latencyCount
      ensures Valid() && response == Respond(req, env)
      ensures metrics.Value() == AfterCalls(old(metrics.Value()), Calls(req, env, duration))
    {
      hide Parse, R.Resolve, ValidateGtin14, N.SelectMediaType, BuildLinkset, DefaultLinkHref, C.Effect, AfterCalls,
        N.HTML, EnvironmentOf, R.Loads;
      assert UriOf(req) == "/" + req.path + (if req.query != "" then "?" + req.query else "");
      hide UriOf;
      ghost var before := metrics.Value();
      var outcome := ParseUri("/" + req.path + (if req.query != "" then "?" + req.query else ""));
      if outcome.Refused? {
        metrics.RecordRequest("bad_request", duration);
        OneCall(before, C.Op.RecordRequest("bad_request", duration));
        return Failure(Unparsed(outcome.error));
      }
      var parsed := outcome.result;
      if parsed.primaryAi == "01" && parsed.primaryValue != "" && !ValidateGtin14(parsed.primaryValue) {
        metrics.RecordRequest("bad_request", duration);
        OneCall(before, C.Op.RecordRequest("bad_request", duration));
        return Failure(BadCheckDigit(parsed.primaryValue));
      }
      var r := GetRouter();
      if r == null {
        NoCall(before);
        return Raised;
      }
      var result := r.ResolveParsed(parsed, env.full);
      if result.None? {
        metrics.RecordRequest("not_found", duration);
        OneCall(before, C.Op.RecordRequest("not_found", duration));
        return Failure(NoRoute);
      }
      var target, links := result.value.target, result.value.links;
      var chosen := N.Select(req.accept, env.number);
      var validation := r.validator(parsed, target);
      var payload := if validation.profile != "" then Some(validation) else None;
      if payload.Some? {
        metrics.RecordValidation(validation.ok);
      }
      var entry := Build(req.url, links, parsed.linkType, payload);
      if chosen == N.HTML {
        var href := DefaultLinkHref(entry).GetOr(target);
        metrics.RecordRequest("redirect", duration);
        CallsOf(before, payload, "redirect", duration);
        return Redirect(href);
      }
      metrics.RecordRequest("resolved", duration);
      CallsOf(before, payload, "resolved", duration);
      return Document(chosen, entry);
    }
  }

  lemma {:induction false} NoCall(c: C.Counters)
    ensures AfterCalls(c, []) == c
  {
  }

  lemma {:induction false} OneCall(c: C.Counters, call: C.Op)
    ensures AfterCalls(c, [] + [call]) == C.Effect(c, call)
  {
    assert ([] + [call])[1..] == [];
  }

  lemma {:induction false} CallsOf(c: C.Counters, payload: Option<Report>, outcome: string, duration: real)
    ensures var request := C.Op.RecordRequest(outcome, duration);
      match payload
      case None => AfterCalls(c, [] + [request]) == C.Effect(c, request)
      case Some(report) =>
        AfterCalls(c, [C.Op.RecordValidation(report.ok)] + [request])
          == C.Effect(C.Effect(c, C.Op.RecordValidation(report.ok)), request)
  {
    hide C.Effect;
    var request := C.Op.RecordRequest(outcome, duration);
    assert ([] + [request])[1..] == [];
    if payload.Some? {
      var both := [C.Op.RecordValidation(payload.value.ok)] + [request];
      assert both[1..] == [request];
      assert AfterCalls(C.Effect(c, both[0]), [request])
        == AfterCalls(C.Effect(C.Effect(c, both[0]), request), [request][1..]);
    }
  }

  // ----- Validation does not interfere -------------------------------------

  /**
   * The same answer apart from some keys of the link-set: same kind and status, same location, same media type, same
   * other keys.
   */
  ghost predicate SameApart(a: Response, b: Response, apart: set<string>) {
    match (a, b)
    case (Raised, Raised) => true
    case (Failure(p), Failure(q)) => p == q
    case (Redirect(l), Redirect(m)) => l == m
    case (Document(t, d), Document(u, e)) => t == u && forall k :: k !in apart ==> Get(d, k) == Get(e, k)
    case _ => false
  }

  lemma {:induction false} SidecarOnly(
    anchor: string, anchor': string, links: seq<R.LinkType>, requested: Option<string>, v: Option<Report>,
      w: Option<Report>, k: string)
    requires (v == w || k != STATUS) && (anchor == anchor' || k != ANCHOR)
    ensures Get(BuildLinkset(anchor, links, requested, v), k) == Get(BuildLinkset(anchor', links, requested, w), k)
  {
    hide Surviving, EntriesUnder;
    if links != [] {
      hide Get;
      LinksetMeaning(anchor, links, requested, v, k);
      LinksetMeaning(anchor', links, requested, w, k);
    } else {
      GetOne(ANCHOR, Field<Report>.Anchor(anchor), k);
      GetOne(ANCHOR, Field<Report>.Anchor(anchor'), k);
    }
  }

  /** Two requests with the same header, routed alike: the answers are the same but for the status and the anchor. */
  lemma SameAnswer(
    req: Request, req': Request, r: ParseResult, r': ParseResult, route: R.Resolution, env: Environment,
      env': Environment, apart: set<string>)
    requires req.accept == req'.accept && r.linkType == r'.linkType && env.number == env'.number
    requires STATUS in apart || (env == env' && r == r')
    requires req.url == req'.url || ANCHOR in apart
    ensures SameApart(Answer(req, r, route, env), Answer(req', r', route, env'), apart)
  {
    hide N.SelectMediaType, BuildLinkset, DefaultLinkHref, Get, Preferred;
    var v, w := Payload(env.validate(r, route.target)), Payload(env'.validate(r', route.target));
    DefaultHref(req.url, route.links, r.linkType, v);
    DefaultHref(req'.url, route.links, r.linkType, w);
    forall k | k !in apart
      ensures Get(BuildLinkset(req.url, route.links, r.linkType, v), k)
        == Get(BuildLinkset(req'.url, route.links, r.linkType, w), k)
    {
      SidecarOnly(req.url, req'.url, route.links, r.linkType, v, w, k);
    }
  }

  lemma SameFailure(p: Problem, apart: set<string>)
    ensures SameApart(Failure(p), Failure(p), apart) && SameApart(Raised, Raised, apart)
  {
  }

  /**
   * Validation never interferes: whatever two validators report, the same request gets the same status, the same
   * redirect, the same media type, and a link-set that differs in its validation status at most.
   */
  lemma ValidationDoesNotInterfere(req: Request, env: Environment, other: Validator)
    ensures SameApart(Respond(req, env), Respond(req, env.(validate := other)), {STATUS})
  {
    hide Parse, RespondTo, R.Resolve, SameApart, UriOf;
    SameResponse(Parse(UriOf(req)), Parse(UriOf(req)), req, req, env, env.(validate := other), {STATUS});
  }

  /** Two requests whose URIs route alike get the same response but for the validation status and the anchor. */
  lemma SameResponse(
    a: Outcome, b: Outcome, req: Request, req': Request, env: Environment, env': Environment, apart: set<string>)
    requires req.accept == req'.accept && env' == env.(validate := env'.validate)
    requires STATUS in apart || (env == env' && a == b)
    requires req.url == req'.url || ANCHOR in apart
    requires
      a == b
      || (a.Parsed? && b.Parsed? && SameIdentity(a.result, b.result) && a.result.linkType == b.result.linkType
          && (env.routes.Some? ==>
                R.Resolve(env.routes.value, a.result, env.full) == R.Resolve(env.routes.value, b.result, env.full)))
    ensures SameApart(RespondTo(a, req, env), RespondTo(b, req', env'), apart)
  {
    hide R.Resolve, ValidateGtin14, Answer, SameApart, SameMap;
    match a {
      case Refused(error) => SameFailure(Unparsed(error), apart);
      case Parsed(r) =>
        SameFailure(BadCheckDigit(r.primaryValue), apart);
        SameFailure(NoRoute, apart);
        if env.routes.Some? && R.Resolve(env.routes.value, r, env.full).Some? {
          SameAnswer(req, req', r, b.result, R.Resolve(env.routes.value, r, env.full).value, env, env', apart);
        }
    }
  }

  // ----- Where a redirect goes ---------------------------------------------

  /**
   * A redirect goes to the default link of the route, its first link if none is declared, and to the target of
   * the route if there is no such link, it has no href, or the request is narrowed to another relation.
   */
  lemma RedirectLocation(req: Request, env: Environment)
    ensures match Respond(req, env)
      case Redirect(location) =>
        && Parse(UriOf(req)).Parsed? && env.routes.Some?
        && R.Resolve(env.routes.value, Parse(UriOf(req)).result, env.full).Some?
        && N.SelectMediaType(req.accept, env.number) == N.HTML
        && location == RedirectOf(R.Resolve(env.routes.value, Parse(UriOf(req)).result, env.full).value,
          Parse(UriOf(req)).result.linkType)
      case _ => true
  {
    hide Parse, R.Resolve, ValidateGtin14, N.SelectMediaType, BuildLinkset, DefaultLinkHref, Preferred, UriOf;
    if Respond(req, env).Redirect? {
      var r := Parse(UriOf(req)).result;
      var route := R.Resolve(env.routes.value, r, env.full).value;
      DefaultHref(req.url, route.links, r.linkType, Payload(env.validate(r, route.target)));
    }
  }

  /** The preferred link of a route, or its target. */
  function RedirectOf(route: R.Resolution, requested: Option<string>): string {
    match Preferred(route.links, requested)
    case Some(link) => if link.href != "" then link.href else route.target
    case None => route.target
  }

  // ----- What is counted ---------------------------------------------------

  /** The calls a list of requests makes, one request after the other. */
  function AllCalls(served: seq<(Request, real)>, env: Environment): seq<C.Op> {
    if served == [] then []
    else AllCalls(served[..|served| - 1], env) + Calls(served[|served| - 1].0, env, served[|served| - 1].1)
  }

  /** What `Resolve` leaves of the counters, request after request. */
  function CountersAfter(c: C.Counters, served: seq<(Request, real)>, env: Environment): C.Counters {
    if served == [] then c
    else
      var last := served[|served| - 1];
      AfterCalls(CountersAfter(c, served[..|served| - 1], env), Calls(last.0, env, last.1))
  }

  lemma {:induction false} AfterReplay(log: seq<C.Op>, calls: seq<C.Op>)
    ensures AfterCalls(C.Replay(log), calls) == C.Replay(log + calls)
    decreases calls
  {
    hide C.Effect, C.Replay;
    if calls == [] {
      assert log + calls == log;
    } else {
      C.ReplayOneMore(log, calls[0]);
      AfterReplay(log + [calls[0]], calls[1..]);
      assert log + [calls[0]] + calls[1..] == log + calls;
    }
  }

  /** Serving requests one by one is replaying all their calls. */
  lemma {:induction false} ServedReplay(served: seq<(Request, real)>, env: Environment)
    ensures CountersAfter(C.ZERO, served, env) == C.Replay(AllCalls(served, env))
  {
    hide Calls, AfterCalls;
    if served == [] {
      assert C.Replay([]) == C.ZERO;
    } else {
      var before, last := served[..|served| - 1], served[|served| - 1];
      ServedReplay(before, env);
      AfterReplay(AllCalls(before, env), Calls(last.0, env, last.1));
    }
  }

  /** How many of the requests were answered with this status. */
  function Answered(served: seq<(Request, real)>, env: Environment, status: int): nat {
    if served == [] then 0
    else
      Answered(served[..|served| - 1], env, status)
      + (if Status(Respond(served[|served| - 1].0, env)) == status then 1 else 0)
  }

  lemma {:induction false} CountAppend(a: seq<C.Op>, b: seq<C.Op>, counted: C.Op -> bool)
    ensures C.Count(a + b, counted) == C.Count(a, counted) + C.Count(b, counted)
  {
    if b == [] {
      assert a + b == a;
    } else {
      assert (a + b)[..|a + b| - 1] == a + b[..|b| - 1];
      CountAppend(a, b[..|b| - 1], counted);
    }
  }

  function OutcomeOfStatus(status: int): string {
    if status == 200 then "resolved" else if status == 302 then "redirect" else if status == 404 then "not_found"
      else "bad_request"
  }

  lemma OutcomeAndStatus(r: Response, status: int)
    requires !r.Raised? && status in {200, 302, 400, 404}
    ensures OutcomeOf(r) == OutcomeOfStatus(status) <==> Status(r) == status
  {
    assert "resolved"[0] == 'r' && "redirect"[2] == 'd' && "resolved"[2] == 's' && "not_found"[0] == 'n'
      && "bad_request"[0] == 'b';
  }

  lemma StatusOfRaised(r: Response)
    ensures r.Raised? <==> Status(r) == 500
  {
  }

  lemma CountCalls(req: Request, env: Environment, duration: real, status: int)
    requires status in {200, 302, 400, 404}
    ensures C.Count(Calls(req, env, duration), C.IsOutcome(OutcomeOfStatus(status)))
      == (if Status(Respond(req, env)) == status then 1 else 0)
    ensures C.Count(Calls(req, env, duration), C.IsRequest) == (if Respond(req, env).Raised? then 0 else 1)
  {
    hide Respond, Status, OutcomeOf, OutcomeOfStatus, Parse, R.Resolve, BadGtin, UriOf;
    StatusOfRaised(Respond(req, env));
    if !Respond(req, env).Raised? {
      OutcomeAndStatus(Respond(req, env), status);
      var first, last := Validations(req, env), [C.Op.RecordRequest(OutcomeOf(Respond(req, env)), duration)];
      CountAppend(first, last, C.IsOutcome(OutcomeOfStatus(status)));
      CountAppend(first, last, C.IsRequest);
      NotRequests(first, OutcomeOfStatus(status));
      assert last[..0] == [];
    }
  }

  lemma {:induction false} NotRequests(calls: seq<C.Op>, outcome: string)
    requires |calls| <= 1 && forall i :: 0 <= i < |calls| ==> calls[i].RecordValidation?
    ensures C.Count(calls, C.IsOutcome(outcome)) == 0 && C.Count(calls, C.IsRequest) == 0
  {
    if calls != [] {
      assert calls[..0] == [];
    }
  }

  lemma {:induction false} CountAll(served: seq<(Request, real)>, env: Environment, status: int)
    requires status in {200, 302, 400, 404}
    ensures C.Count(AllCalls(served, env), C.IsOutcome(OutcomeOfStatus(status))) == Answered(served, env, status)
    ensures C.Count(AllCalls(served, env), C.IsRequest) == |served| - Answered(served, env, 500)
  {
    hide Respond, Calls, Status, OutcomeOfStatus;
    if served == [] {
    } else {
      var before, last := served[..|served| - 1], served[|served| - 1];
      CountAll(before, env, status);
      CountCalls(last.0, env, last.1, status);
      StatusOfRaised(Respond(last.0, env));
      CountAppend(AllCalls(before, env), Calls(last.0, env, last.1), C.IsOutcome(OutcomeOfStatus(status)));
      CountAppend(AllCalls(before, env), Calls(last.0, env, last.1), C.IsRequest);
    }
  }

  /**
   * The counters tell what was answered: after a new service has served any list of requests, each outcome counter
   * is the number of responses with its status, and the latency count is the number of requests that no exception
   * ended, whatever the validator does.
   */
  lemma {:induction false} CountersTellResponses(served: seq<(Request, real)>, env: Environment, status: int)
    requires status in {200, 302, 400, 404}
    ensures var c := CountersAfter(C.ZERO, served, env);
      GetOr(c.requests, OutcomeOfStatus(status), 0) == Answered(served, env, status)
        && c.latencyCount == |served| - Answered(served, env, 500)
  {
    hide C.Replay, AllCalls, Answered, OutcomeOfStatus, C.Count, Get, CountersAfter;
    ServedReplay(served, env);
    C.ReplayCounts(AllCalls(served, env), OutcomeOfStatus(status));
    CountAll(served, env, status);
  }
}
