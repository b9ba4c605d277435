/** The GitHub REST client of githuberino.py: `github_rest_api`, which
    prepares and sends one request and records the rate limits it reports,
    and `github_allpages`, which follows the `next` links of the `Link`
    header and gathers the records of every page.

    The network is a total function from a request to the response it gets;
    the `.ini` settings behind `setting()` are a function from (topic,
    section, key) to the value found, if any. */
module GitHubApi {
  import opened Values
  import opened LinkHeader
  import opened Dicts

  /** The host a root-relative endpoint is resolved against. */
  const ApiRoot: string := "https://api.github.com"

  /** The `Accept` header that selects version 3 of the API. */
  const V3Accept: string := "application/vnd.github.v3+json"

  /** The value both rate-limit fields take when a response lacks the
      rate-limit headers. */
  const Sentinel: int := 999999

  type Headers = map<string, string>

  /** The `auth` argument: Python's `None` or `()` is `NoAuth`; a
      `(username, pat)` tuple is `Credentials`. */
  datatype Auth = NoAuth | Credentials(user: string, token: Option<string>)

  /** `setting(topic, section, key)`. */
  type Settings = (string, string, string) -> Option<string>

  /** What `sess.get` sends. */
  datatype Request = Request(url: string, headers: Headers, auth: Auth)

  /** What comes back: the `ok` flag, the records of the JSON array in the
      body, the `Link` header and the two rate-limit headers, when present. */
  datatype Response = Response(
    ok: bool,
    records: seq<JsonObject>,
    link: Option<string>,
    rateLimit: Option<int>,
    rateRemaining: Option<int>)

  type Network = Request -> Response

  /** A Requests session; only its `auth` attribute matters here. */
  class Session {
    var auth: Auth

    constructor ()
      ensures auth == NoAuth
    {
      auth := NoAuth;
    }
  }

  /** The optional state object the caller threads through its calls. */
  class CallState {
    var session: Session?
    var verbose: bool
    var lastRateLimit: int
    var lastRemaining: int
  }

  /** Python's truth value of the endpoint: `None` and `''` are false. */
  predicate Given(endpoint: Option<string>)
  {
    endpoint.Some? && endpoint.value != []
  }

  /** An endpoint a request can be made for: a non-empty string. */
  type Endpoint = s: string | s != [] witness "/"

  /** The URL a non-empty endpoint is sent to: a root-relative endpoint is
      prefixed with the API host, anything else is taken as a full URL. */
  function FullEndpoint(endpoint: Endpoint): (url: string)
    ensures url != [] && url[0] != '/'
    ensures |endpoint| <= |url| && url[|url| - |endpoint|..] == endpoint
    ensures url == endpoint || url == ApiRoot + endpoint
    ensures url == ApiRoot + endpoint <==> endpoint[0] == '/'
  {
    if endpoint[0] == '/' then ApiRoot + endpoint else endpoint
  }

  /** The headers sent: the caller's, over a default `Accept`. */
  function MergeHeaders(headers: Headers): (merged: Headers)
    ensures merged.Keys == headers.Keys + {"Accept"}
    ensures forall k :: k in headers ==> merged[k] == headers[k]
    ensures "Accept" !in headers ==> merged["Accept"] == V3Accept
  {
    map["Accept" := V3Accept] + headers
  }

  /** The credentials a call uses: the caller's, else those of the default
      account named in the settings, else none. The ensures state this
      rule itself; `RestApi` resolves its credentials inline and is proved
      to send these (through `RequestFor`), and `AllPages` to leave them on
      the session. */
  function ResolveAuth(auth: Auth, settings: Settings): (resolved: Auth)
    ensures auth.Credentials? ==> resolved == auth
    ensures auth.NoAuth? ==>
      var account := settings("dougerino", "defaults", "github_user");
      if account.Some? && account.value != []
      then resolved == Credentials(account.value, settings("github", account.value, "pat"))
      else resolved == NoAuth
  {
    match auth
    case Credentials(_, _) => auth
    case NoAuth =>
      var account := settings("dougerino", "defaults", "github_user");
      if account.Some? && account.value != [] then
        Credentials(account.value, settings("github", account.value, "pat"))
      else NoAuth
  }

  /** The rate-limit fields after a response: both headers' values when both
      are present, the sentinel in both otherwise. The ensures state this
      rule itself; `RecordRateLimits`, `RestApi` and `AllPages` are proved
      to store exactly these. */
  function RateLimitsOf(response: Response): (limits: (int, int))
    ensures response.rateLimit.Some? && response.rateRemaining.Some? ==>
      limits == (response.rateLimit.value, response.rateRemaining.value)
    ensures response.rateLimit.None? || response.rateRemaining.None? ==>
      limits == (Sentinel, Sentinel)
  {
    if response.rateLimit.Some? && response.rateRemaining.Some? then
      (response.rateLimit.value, response.rateRemaining.value)
    else (Sentinel, Sentinel)
  }

  /** The session a call uses: the one passed, else the one cached on the
      state, else a new one, which is cached when there is a state. */
  method SelectSession(state: CallState?, session: Session?) returns (sess: Session)
    modifies state
    ensures session != null ==> sess == session
    ensures session == null && state != null && old(state.session) != null ==> sess == old(state.session)
    ensures session == null && (state == null || old(state.session) == null) ==> fresh(sess) && sess.auth == NoAuth
    ensures state != null ==> state.session == if session == null then sess else old(state.session)
    ensures state != null ==>
      && state.verbose == old(state.verbose)
      && state.lastRateLimit == old(state.lastRateLimit)
      && state.lastRemaining == old(state.lastRemaining)
  {
    if session != null {
      sess := session;
    } else if state != null {
      if state.session != null {
        sess := state.session;
      } else {
        sess := new Session();
        state.session := sess;
      }
    } else {
      sess := new Session();  // used for this call only
    }
  }

  /** The update of the state's rate-limit fields: the limit is stored, then
      the remaining count; a missing header sets both to the sentinel. */
  method RecordRateLimits(state: CallState, response: Response)
    modifies state
    ensures (state.lastRateLimit, state.lastRemaining) == RateLimitsOf(response)
    ensures state.session == old(state.session) && state.verbose == old(state.verbose)
  {
    match response.rateLimit {
      case Some(limit) =>
        state.lastRateLimit := limit;
        match response.rateRemaining {
          case Some(remaining) =>
            state.lastRemaining := remaining;
          case None =>
            state.lastRateLimit := Sentinel;
            state.lastRemaining := Sentinel;
        }
      case None =>
        state.lastRateLimit := Sentinel;
        state.lastRemaining := Sentinel;
    }
  }

  /** The arguments `github_allpages` passes unchanged to every call. */
  datatype Call = Call(auth: Auth, headers: Headers, settings: Settings, network: Network)

  /** The request a call for an endpoint sends. */
  function RequestFor(c: Call, endpoint: Endpoint): Request
  {
    Request(FullEndpoint(endpoint), MergeHeaders(c.headers), ResolveAuth(c.auth, c.settings))
  }

  /** The response to a call for an endpoint. */
  function Fetch(c: Call, endpoint: Endpoint): Response
  {
    c.network(RequestFor(c, endpoint))
  }

  /** The pages of a call, endpoint by endpoint. */
  function Pager(c: Call): Endpoint -> Response
  {
    (endpoint: Endpoint) => Fetch(c, endpoint)
  }

  /** `github_rest_api(endpoint=..., auth=..., headers=..., state=...,
      session=...)`. `sent` is the request made, if any, and `used` the
      session it went through. */
  method RestApi(
    endpoint: Option<string>, auth: Auth, headers: Headers,
    state: CallState?, session: Session?, settings: Settings, network: Network)
    returns (response: Option<Response>, ghost sent: Option<Request>, ghost used: Session?)
    modifies state, session, if state != null && state.session != null then {state.session} else {}
    ensures !Given(endpoint) ==> response == None && sent == None && used == null
    ensures !Given(endpoint) && state != null ==> unchanged(state)
    ensures !Given(endpoint) && session != null ==> unchanged(session)
    ensures Given(endpoint) ==>
      && sent == Some(RequestFor(Call(auth, headers, settings, network), endpoint.value))
      && response == Some(Fetch(Call(auth, headers, settings, network), endpoint.value))
    ensures Given(endpoint) && state != null ==>
      && (state.lastRateLimit, state.lastRemaining) == RateLimitsOf(response.value)
      && state.verbose == old(state.verbose)
    ensures Given(endpoint) ==> used != null && used.auth == sent.value.auth
    ensures Given(endpoint) && session != null ==> used == session
    ensures Given(endpoint) && session == null && state != null && old(state.session) != null ==>
      used == old(state.session)
    ensures Given(endpoint) && session == null && (state == null || old(state.session) == null) ==>
      fresh(used)
    ensures Given(endpoint) && state != null ==>
      state.session == if session == null then used else old(state.session)
    ensures state != null && old(state.session) != null && old(state.session) != used ==>
      unchanged(old(state.session))
  {
    if endpoint.None? || endpoint.value == [] {
      return None, None, null;  // no endpoint: no request
    }
    var resolved := auth;
    if auth.NoAuth? {
      var account := settings("dougerino", "defaults", "github_user");
      if account.Some? && account.value != [] {
        resolved := Credentials(account.value, settings("github", account.value, "pat"));
      }
    }
    var headersDict := MergeHeaders(headers);
    var sess := SelectSession(state, session);
    sess.auth := resolved;
    var fullEndpoint := FullEndpoint(endpoint.value);
    var request := Request(fullEndpoint, headersDict, sess.auth);
    var r := network(request);
    if state != null {
      RecordRateLimits(state, r);
    }
    response, sent, used := Some(r), Some(request), sess;
  }

  /** The endpoint of the next page: the `nextURL` of the response's Link
      header, when that is a non-empty string. */
  function NextOf(response: Response): (next: Option<Endpoint>)
    ensures next.Some? ==> LastNextUrl(EntryTexts(ResponseLink(response.link))) == Some(next.value)
    ensures next.None? ==> LastNextUrl(EntryTexts(ResponseLink(response.link))) in {None, Some("")}
  {
    var url := LastNextUrl(EntryTexts(ResponseLink(response.link)));
    if url.Some? && url.value != [] then Some(url.value) else None
  }

  /** `NextOf` is what the loop reads: `pagelinks['nextURL']` when that is a
      non-empty string, and nothing when it is None or empty. */
  lemma NextOfParsed(response: Response)
    ensures var links := Parsed(ResponseLink(response.link));
      && "nextURL" in links
      && (NextOf(response).Some? <==> links["nextURL"].StrValue? && links["nextURL"].s != [])
      && (NextOf(response).Some? ==> links["nextURL"] == StrValue(NextOf(response).value))
  {
    ParsedNextUrl(ResponseLink(response.link));
  }

  /** How a chain of pages goes on: `page` gives the response for an
      endpoint and `follow` the endpoint a response points to, if any. The
      client pages with `Pager` and follows `NextOf`; the lemmas below hold
      for any pair. */
  type Page = Endpoint -> Response
  type Follow = Response -> Option<Endpoint>

  /** Following the chain from `endpoint` reaches a response that points
      nowhere within `bound` requests: the chain of pages is finite. */
  predicate ChainEnds(page: Page, follow: Follow, endpoint: Endpoint, bound: nat)
    decreases bound
  {
    bound > 0 &&
    match follow(page(endpoint))
    case None => true
    case Some(url) => ChainEnds(page, follow, url, bound - 1)
  }

  /** What one page adds to the payload: its records if the response is
      ok, nothing otherwise. The ensures state this rule itself; the
      payload of `AllPages` is proved to be these contributions, page by
      page (`PagesFrom`, `PagesAreOkContributions`). */
  function Contribution(response: Response): (records: seq<JsonObject>)
    ensures response.ok ==> records == response.records
    ensures !response.ok ==> records == []
  {
    if response.ok then response.records else []
  }

  /** The payload gathered from `endpoint` to the end of the chain. */
  function PagesFrom(page: Page, follow: Follow, endpoint: Endpoint, bound: nat): seq<JsonObject>
    requires ChainEnds(page, follow, endpoint, bound)
    decreases bound
  {
    var response := page(endpoint);
    Contribution(response) +
      match follow(response)
      case None => []
      case Some(url) => PagesFrom(page, follow, url, bound - 1)
  }

  /** The endpoints requested from `endpoint` to the end of the chain. */
  function EndpointsFrom(page: Page, follow: Follow, endpoint: Endpoint, bound: nat): (endpoints: seq<Endpoint>)
    requires ChainEnds(page, follow, endpoint, bound)
    ensures 1 <= |endpoints| <= bound && endpoints[0] == endpoint
    decreases bound
  {
    match follow(page(endpoint))
    case None => [endpoint]
    case Some(url) => [endpoint] + EndpointsFrom(page, follow, url, bound - 1)
  }

  /** The response to the last request of the chain. */
  function LastResponse(page: Page, follow: Follow, endpoint: Endpoint, bound: nat): Response
    requires ChainEnds(page, follow, endpoint, bound)
    decreases bound
  {
    var response := page(endpoint);
    match follow(response)
    case None => response
    case Some(url) => LastResponse(page, follow, url, bound - 1)
  }

  /** One request of the chain: a response that points nowhere ends it;
      one that points on leaves a shorter chain from where it points. */
  lemma ChainStep(page: Page, follow: Follow, endpoint: Endpoint, bound: nat)
    requires ChainEnds(page, follow, endpoint, bound)
    ensures var response := page(endpoint);
      match follow(response)
      case None =>
        && PagesFrom(page, follow, endpoint, bound) == Contribution(response)
        && LastResponse(page, follow, endpoint, bound) == response
      case Some(url) =>
        && ChainEnds(page, follow, url, bound - 1)
        && PagesFrom(page, follow, endpoint, bound) == Contribution(response) + PagesFrom(page, follow, url, bound - 1)
        && LastResponse(page, follow, endpoint, bound) == LastResponse(page, follow, url, bound - 1)
  {
  }

  /** Each request after the first goes to the endpoint the previous
      response points to, and the last response points nowhere. */
  lemma {:induction false} EndpointChain(page: Page, follow: Follow, endpoint: Endpoint, bound: nat)
    requires ChainEnds(page, follow, endpoint, bound)
    ensures var eps := EndpointsFrom(page, follow, endpoint, bound);
      && (forall i :: 0 <= i < |eps| - 1 ==> follow(page(eps[i])) == Some(eps[i + 1]))
      && follow(page(eps[|eps| - 1])).None?
      && LastResponse(page, follow, endpoint, bound) == page(eps[|eps| - 1])
    decreases bound
  {
    match follow(page(endpoint))
    case None =>
    case Some(url) =>
      EndpointChain(page, follow, url, bound - 1);
  }

  /** The concatenation of a list of record lists, in order. */
  function Concat(pages: seq<seq<JsonObject>>): seq<JsonObject>
  {
    if pages == [] then [] else pages[0] + Concat(pages[1..])
  }

  /** The payload is the ok pages' records, page after page in the order
      they were requested, none reordered or dropped. */
  lemma {:induction false} PagesAreOkContributions(page: Page, follow: Follow, endpoint: Endpoint, bound: nat)
    requires ChainEnds(page, follow, endpoint, bound)
    ensures var eps := EndpointsFrom(page, follow, endpoint, bound);
      PagesFrom(page, follow, endpoint, bound) ==
        Concat(seq(|eps|, i requires 0 <= i < |eps| => Contribution(page(eps[i]))))
    decreases bound
  {
    var eps := EndpointsFrom(page, follow, endpoint, bound);
    var pages := seq(|eps|, i requires 0 <= i < |eps| => Contribution(page(eps[i])));
    match follow(page(endpoint))
    case None =>
      assert pages[1..] == [];
    case Some(url) =>
      PagesAreOkContributions(page, follow, url, bound - 1);
      var rest := EndpointsFrom(page, follow, url, bound - 1);
      assert eps[1..] == rest;
      assert pages[1..] == seq(|rest|, i requires 0 <= i < |rest| => Contribution(page(rest[i])));
  }

  /** The ghost bound only has to be large enough: any two bounds that
      reach the end of the chain give the same pages, endpoints and last
      response. */
  lemma {:induction false} BoundIrrelevant(page: Page, follow: Follow, endpoint: Endpoint, b1: nat, b2: nat)
    requires ChainEnds(page, follow, endpoint, b1) && ChainEnds(page, follow, endpoint, b2)
    ensures PagesFrom(page, follow, endpoint, b1) == PagesFrom(page, follow, endpoint, b2)
    ensures EndpointsFrom(page, follow, endpoint, b1) == EndpointsFrom(page, follow, endpoint, b2)
    ensures LastResponse(page, follow, endpoint, b1) == LastResponse(page, follow, endpoint, b2)
    decreases b1
  {
    match follow(page(endpoint))
    case None =>
    case Some(url) =>
      BoundIrrelevant(page, follow, url, b1 - 1, b2 - 1);
  }

  /** The request of a call for an endpoint, as a function of the endpoint. */
  function Requester(c: Call): Endpoint -> Request
  {
    (endpoint: Endpoint) => RequestFor(c, endpoint)
  }

  /** The requests a call sends for a list of endpoints, in order. */
  function Requests(c: Call, endpoints: seq<Endpoint>): seq<Request>
  {
    MapSeq(Requester(c), endpoints)
  }

  /** The records gathered from the pages of a list of endpoints, in
      order: each page's contribution. */
  function Gathered(page: Page, endpoints: seq<Endpoint>): seq<JsonObject>
  {
    if endpoints == [] then [] else Contribution(page(endpoints[0])) + Gathered(page, endpoints[1..])
  }

  /** One more page adds its contribution at the end. */
  lemma {:induction false} GatheredSnoc(page: Page, endpoints: seq<Endpoint>, endpoint: Endpoint)
    ensures Gathered(page, endpoints + [endpoint]) == Gathered(page, endpoints) + Contribution(page(endpoint))
    decreases |endpoints|
  {
    if endpoints != [] {
      assert (endpoints + [endpoint])[1..] == endpoints[1..] + [endpoint];
      GatheredSnoc(page, endpoints[1..], endpoint);
      AppendAssociative(Contribution(page(endpoints[0])), Gathered(page, endpoints[1..]), Contribution(page(endpoint)));
    }
  }

  /** The payload of a chain is what the pages of its endpoints gather. */
  lemma {:induction false} GatheredChain(page: Page, follow: Follow, endpoint: Endpoint, bound: nat)
    requires ChainEnds(page, follow, endpoint, bound)
    ensures Gathered(page, EndpointsFrom(page, follow, endpoint, bound)) == PagesFrom(page, follow, endpoint, bound)
    decreases bound
  {
    var eps := EndpointsFrom(page, follow, endpoint, bound);
    match follow(page(endpoint))
    case None =>
      assert eps[1..] == [];
    case Some(url) =>
      GatheredChain(page, follow, url, bound - 1);
      assert eps[1..] == EndpointsFrom(page, follow, url, bound - 1);
  }

  /** Request `k` of the chain from `endpoint`: its page extends the
      records gathered so far; a response that points nowhere is the last
      one and completes the payload, and one that points on points to the
      next endpoint of the chain. */
  lemma ChainRequest(page: Page, follow: Follow, endpoint: Endpoint, bound: nat, k: nat, records: seq<JsonObject>)
    requires ChainEnds(page, follow, endpoint, bound)
    requires k < |EndpointsFrom(page, follow, endpoint, bound)|
    requires records == Gathered(page, EndpointsFrom(page, follow, endpoint, bound)[..k])
    ensures var eps := EndpointsFrom(page, follow, endpoint, bound);
      var response := page(eps[k]);
      && eps[..k + 1] == eps[..k] + [eps[k]]
      && records + Contribution(response) == Gathered(page, eps[..k + 1])
      && (follow(response).None? ==>
            && eps[..k + 1] == eps
            && records + Contribution(response) == PagesFrom(page, follow, endpoint, bound)
            && response == LastResponse(page, follow, endpoint, bound))
      && (follow(response).Some? ==> k + 1 < |eps| && follow(response).value == eps[k + 1])
  {
    var eps := EndpointsFrom(page, follow, endpoint, bound);
    EndpointChain(page, follow, endpoint, bound);
    assert eps[..k + 1] == eps[..k] + [eps[k]];
    GatheredSnoc(page, eps[..k], eps[k]);
    if k + 1 < |eps| {
      assert follow(page(eps[k])) == Some(eps[k + 1]);
    } else {
      assert eps[..k + 1] == eps;
      GatheredChain(page, follow, endpoint, bound);
    }
  }

  /** The loop of `github_allpages` is at request `k` of the chain of a
      call from `endpoint`: it is about to request `next`, the `k`-th
      endpoint, having gathered the records and sent the requests of the
      endpoints before it. */
  ghost predicate ChainAt(c: Call, endpoint: Endpoint, bound: nat, k: nat, next: Endpoint,
                          records: seq<JsonObject>, sent: seq<Request>)
  {
    && ChainEnds(Pager(c), NextOf, endpoint, bound)
    && var eps := EndpointsFrom(Pager(c), NextOf, endpoint, bound);
    && k < |eps| && next == eps[k]
    && records == Gathered(Pager(c), eps[..k])
    && sent == Requests(c, eps[..k])
  }

  /** One request of the loop: a response pointing on moves the loop to
      the next request of the chain; one pointing nowhere ends the chain,
      with every request sent, the whole payload gathered and the last
      response received. */
  lemma ChainAdvance(c: Call, endpoint: Endpoint, bound: nat, k: nat, next: Endpoint,
                     records: seq<JsonObject>, sent: seq<Request>)
    requires ChainAt(c, endpoint, bound, k, next, records, sent)
    ensures var response := Fetch(c, next);
      var records' := records + Contribution(response);
      var sent' := sent + [RequestFor(c, next)];
      && (NextOf(response).Some? ==> ChainAt(c, endpoint, bound, k + 1, NextOf(response).value, records', sent'))
      && (NextOf(response).None? ==>
            && records' == PagesFrom(Pager(c), NextOf, endpoint, bound)
            && sent' == Requests(c, EndpointsFrom(Pager(c), NextOf, endpoint, bound))
            && response == LastResponse(Pager(c), NextOf, endpoint, bound))
  {
    var eps := EndpointsFrom(Pager(c), NextOf, endpoint, bound);
    ChainRequest(Pager(c), NextOf, endpoint, bound, k, records);
    MapSeqSnoc(Requester(c), eps[..k], eps[k]);
  }

  /** `pagelinks['nextURL']` of a response, as the loop reads it: a
      string when it names a next page, otherwise None or `''`. */
  method NextEndpoint(response: Response) returns (next: Option<string>)
    ensures Given(next) <==> NextOf(response).Some?
    ensures Given(next) ==> next == Some(NextOf(response).value)
  {
    var pagelinks := Pagination(ResponseLink(response.link));
    NextOfParsed(response);
    match pagelinks["nextURL"] {
      case StrValue(url) => next := Some(url);
      case _ => next := None;
    }
  }

  /** `github_allpages(endpoint, auth, headers, state, session)`. The chain
      of `next` links must end within the ghost `bound` requests; the
      Python loop does not end on a cyclic chain. `sent` lists the requests
      made, in order. A missing endpoint makes the first call return None,
      on which `response.status_code` raises; otherwise the loop follows
      the chain (`FollowPages`). */
  method AllPages(
    endpoint: Option<string>, auth: Auth, headers: Headers,
    state: CallState?, session: Session?, settings: Settings, network: Network,
    ghost bound: nat)
    returns (payload: Result<seq<JsonObject>>, ghost sent: seq<Request>)
    requires Given(endpoint) ==>
      ChainEnds(Pager(Call(auth, headers, settings, network)), NextOf, endpoint.value, bound)
    modifies state, session, if state != null && state.session != null then {state.session} else {}
    ensures !Given(endpoint) ==> payload == Err(AttributeError) && sent == []
    ensures Given(endpoint) ==>
      sent == Requests(Call(auth, headers, settings, network),
                       EndpointsFrom(Pager(Call(auth, headers, settings, network)), NextOf, endpoint.value, bound))
    ensures Given(endpoint) ==>
      payload == Ok(PagesFrom(Pager(Call(auth, headers, settings, network)), NextOf, endpoint.value, bound))
    ensures Given(endpoint) && state != null ==>
      (state.lastRateLimit, state.lastRemaining) ==
        RateLimitsOf(LastResponse(Pager(Call(auth, headers, settings, network)), NextOf, endpoint.value, bound))
    ensures !Given(endpoint) && state != null ==> unchanged(state)
    ensures !Given(endpoint) && session != null ==> unchanged(session)
    ensures state != null ==> state.verbose == old(state.verbose)
    ensures state != null && (session != null || old(state.session) != null || !Given(endpoint)) ==>
      state.session == old(state.session)
    ensures Given(endpoint) && state != null && session == null && old(state.session) == null ==>
      state.session != null && fresh(state.session) && state.session.auth == ResolveAuth(auth, settings)
    ensures Given(endpoint) && session == null && state != null && old(state.session) != null ==>
      old(state.session).auth == ResolveAuth(auth, settings)
    ensures Given(endpoint) && session != null ==> session.auth == ResolveAuth(auth, settings)
    ensures state != null && old(state.session) != null && old(state.session) != session ==>
      (session != null || !Given(endpoint) ==> unchanged(old(state.session)))
  {
    if !Given(endpoint) {
      var response, request, used := RestApi(endpoint, auth, headers, state, session, settings, network);
      return Err(AttributeError), [];  // `response.status_code` on None
    }
    var records;
    records, sent := FollowPages(endpoint.value, auth, headers, state, session, settings, network, bound);
    payload := Ok(records);
  }

  /** One pass of the `while True` loop of `github_allpages`: request the
      page of `pageEndpoint`, add its records if it is ok, and read its
      `next` URL. The pass moves the loop along the chain of `next` links
      of the call, or ends it with the whole payload. */
  method RequestPage(
    pageEndpoint: Endpoint, auth: Auth, headers: Headers,
    state: CallState?, session: Session?, settings: Settings, network: Network,
    records: seq<JsonObject>,
    ghost sent: seq<Request>, ghost endpoint: Endpoint, ghost bound: nat, ghost k: nat)
    returns (records': seq<JsonObject>, ghost sent': seq<Request>, next: Option<string>, ghost used: Session)
    requires ChainAt(Call(auth, headers, settings, network), endpoint, bound, k, pageEndpoint, records, sent)
    modifies state, session, if state != null && state.session != null then {state.session} else {}
    ensures Given(next) ==>
      ChainAt(Call(auth, headers, settings, network), endpoint, bound, k + 1, next.value, records', sent')
    ensures !Given(next) ==>
      && records' == PagesFrom(Pager(Call(auth, headers, settings, network)), NextOf, endpoint, bound)
      && sent' == Requests(Call(auth, headers, settings, network),
                           EndpointsFrom(Pager(Call(auth, headers, settings, network)), NextOf, endpoint, bound))
    ensures !Given(next) && state != null ==>
      (state.lastRateLimit, state.lastRemaining) ==
        RateLimitsOf(LastResponse(Pager(Call(auth, headers, settings, network)), NextOf, endpoint, bound))
    ensures state != null ==> state.verbose == old(state.verbose)
    ensures used.auth == ResolveAuth(auth, settings)
    ensures session != null ==> used == session
    ensures session == null && state != null && old(state.session) != null ==> used == old(state.session)
    ensures session == null && (state == null || old(state.session) == null) ==> fresh(used)
    ensures state != null ==> state.session == if session == null then used else old(state.session)
    ensures state != null && old(state.session) != null && old(state.session) != used ==>
      unchanged(old(state.session))
  {
    ghost var c := Call(auth, headers, settings, network);
    var response;
    ghost var request;
    response, request, used := RestApi(Some(pageEndpoint), auth, headers, state, session, settings, network);
    var r := response.value;
    ChainAdvance(c, endpoint, bound, k, pageEndpoint, records, sent);
    sent' := sent + [request.value];
    records' := records;
    if r.ok {
      records' := records + r.records;
    }
    next := NextEndpoint(r);
  }

  /** The `while True` loop of `github_allpages` from a non-empty endpoint:
      request a page, add its records if it is ok, and go on to its `next`
      URL until there is none. */
  method FollowPages(
    endpoint: Endpoint, auth: Auth, headers: Headers,
    state: CallState?, session: Session?, settings: Settings, network: Network,
    ghost bound: nat)
    returns (payload: seq<JsonObject>, ghost sent: seq<Request>)
    requires ChainEnds(Pager(Call(auth, headers, settings, network)), NextOf, endpoint, bound)
    modifies state, session, if state != null && state.session != null then {state.session} else {}
    ensures sent == Requests(Call(auth, headers, settings, network),
                             EndpointsFrom(Pager(Call(auth, headers, settings, network)), NextOf, endpoint, bound))
    ensures payload == PagesFrom(Pager(Call(auth, headers, settings, network)), NextOf, endpoint, bound)
    ensures state != null ==>
      (state.lastRateLimit, state.lastRemaining) ==
        RateLimitsOf(LastResponse(Pager(Call(auth, headers, settings, network)), NextOf, endpoint, bound))
    ensures state != null ==> state.verbose == old(state.verbose)
    ensures state != null && (session != null || old(state.session) != null) ==>
      state.session == old(state.session)
    ensures state != null && session == null && old(state.session) == null ==>
      state.session != null && fresh(state.session) && state.session.auth == ResolveAuth(auth, settings)
    ensures session == null && state != null && old(state.session) != null ==>
      old(state.session).auth == ResolveAuth(auth, settings)
    ensures session != null ==> session.auth == ResolveAuth(auth, settings)
    ensures state != null && old(state.session) != null && old(state.session) != session && session != null ==>
      unchanged(old(state.session))
  {
    ghost var c := Call(auth, headers, settings, network);
    sent := [];
    var records: seq<JsonObject> := [];
    var pageEndpoint: Option<string> := Some(endpoint);
    ghost var k := 0;
    while true
      invariant Given(pageEndpoint) && ChainAt(c, endpoint, bound, k, pageEndpoint.value, records, sent)
      invariant state != null ==> state.verbose == old(state.verbose)
      invariant state != null && (session != null || old(state.session) != null) ==>
        state.session == old(state.session)
      invariant state != null && old(state.session) != null && old(state.session) != session && session != null ==>
        unchanged(old(state.session))
      invariant state != null && session == null && old(state.session) == null ==>
        state.session == null || fresh(state.session)
      decreases |EndpointsFrom(Pager(c), NextOf, endpoint, bound)| - k
    {
      ghost var used;
      records, sent, pageEndpoint, used :=
        RequestPage(pageEndpoint.value, auth, headers, state, session, settings, network, records, sent, endpoint, bound, k);
      if !Given(pageEndpoint) {
        break;  // no more results to process
      }
      k := k + 1;
    }
    payload := records;
  }
}
