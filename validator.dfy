/**
 * validator/main.go: every recorded request/response pair is rebuilt as an HTTP request and an
 * HTTP response and checked against the OpenAPI document; the pair counts as valid, invalid,
 * or (when either cannot be built) as neither. The OpenAPI library, `url.Parse`,
 * `json.Marshal`, `http.NewRequest`'s own checks and the header-name canonicalisation are
 * oracles in `Env`; the order in which Go ranges over a header map is an input too.
 */
module Validator {
  import opened Wrappers
  import opened SeqUtil

  /** A decoded JSON value other than `null` (a `null` or absent body is `None`). */
  datatype Json =
    | JBool(b: bool)
    | JNum(literal: string)
    | JStr(s: string)
    | JArr(items: seq<Json>)
    | JObj(members: map<string, Json>)

  datatype Request = Request(verb: string, path: string, headers: map<string, string>, body: Option<Json>)
  datatype Response = Response(status: int, headers: map<string, string>, body: Option<Json>)
  datatype Record = Record(timestamp: string, request: Request, response: Response)

  /** The `http.Request` built from a record: its body is the marshalled JSON, if any. */
  datatype HttpRequest = HttpRequest(verb: string, url: string, header: map<string, string>, body: Option<string>)
  datatype HttpResponse = HttpResponse(statusCode: int, header: map<string, string>, body: Option<string>, request: HttpRequest)

  /**
   * What the model does not compute itself. `requestOrder(i)` and `responseOrder(i)` are the
   * orders in which the headers of record `i` are visited; `requestErrors` and `responseErrors`
   * are how many errors the OpenAPI validator reports.
   */
  datatype Env = Env(
    parseUrl: string -> Option<string>,
    marshal: Json -> Option<string>,
    acceptsRequest: (string, string) -> bool,
    canon: string -> string,
    requestOrder: nat -> seq<string>,
    responseOrder: nat -> seq<string>,
    requestErrors: HttpRequest -> nat,
    responseErrors: (HttpRequest, HttpResponse) -> nat)

  /** `len(os.Args) != 3` stops the program with status 1; otherwise the two file names. */
  function Arguments(args: seq<string>): (r: Option<(string, string)>)
    ensures r.Some? <==> |args| == 3
    ensures r.Some? ==> r.value == (args[1], args[2])
  {
    if |args| == 3 then Some((args[1], args[2])) else None
  }

  /** The request or response body: nothing for `null`, the marshalled text otherwise. */
  function EncodeBody(body: Option<Json>, marshal: Json -> Option<string>): (r: Result<Option<string>, string>)
    ensures r.Ok? <==> body.None? || marshal(body.value).Some?
    ensures r.Ok? ==> (r.value.None? <==> body.None?)
    ensures r.Ok? && body.Some? ==> r.value == marshal(body.value)
  {
    match body
    case None => Ok(None)
    case Some(j) =>
      match marshal(j)
      case None => Err("failed to marshal body")
      case Some(text) => Ok(Some(text))
  }

  /**
   * The header map after `Header.Set(key, value)` for the keys of `order` that `src` has, in
   * that order: every name is the canonical form of a source key, and holds that key's value.
   */
  function Headers(order: seq<string>, src: map<string, string>, canon: string -> string): (h: map<string, string>)
    ensures h.Keys == set k | k in order && k in src :: canon(k)
    ensures forall c :: c in h ==> exists k :: k in order && k in src && canon(k) == c && h[c] == src[k]
  {
    if order == [] then map[]
    else
      var last := order[|order| - 1];
      var before := Headers(order[..|order| - 1], src, canon);
      if last in src then before[canon(last) := src[last]] else before
  }

  /** No two source keys share a canonical name. */
  predicate CanonInjective(src: map<string, string>, canon: string -> string) {
    forall a, b :: a in src && b in src && canon(a) == canon(b) ==> a == b
  }

  /** When no two keys collide, every visited key's value ends up under its canonical name. */
  lemma {:induction false} HeadersKeepValues(order: seq<string>, src: map<string, string>, canon: string -> string)
    requires CanonInjective(src, canon)
    ensures forall k :: k in order && k in src ==>
      canon(k) in Headers(order, src, canon) && Headers(order, src, canon)[canon(k)] == src[k]
  {
    if order != [] {
      var init := order[..|order| - 1];
      HeadersKeepValues(init, src, canon);
      forall k | k in order && k in src
        ensures Headers(order, src, canon)[canon(k)] == src[k]
      {
        if k != order[|order| - 1] {
          assert k in init;
        }
      }
    }
  }

  /** When no two keys collide, the order in which Go ranges over the map does not matter. */
  lemma HeadersOrderFree(o1: seq<string>, o2: seq<string>, src: map<string, string>, canon: string -> string)
    requires CanonInjective(src, canon)
    requires forall k :: k in o1 <==> k in o2
    ensures Headers(o1, src, canon) == Headers(o2, src, canon)
  {
    var h1, h2 := Headers(o1, src, canon), Headers(o2, src, canon);
    HeadersKeepValues(o1, src, canon);
    HeadersKeepValues(o2, src, canon);
    assert h1.Keys == h2.Keys;
    forall c | c in h1
      ensures h1[c] == h2[c]
    {
      var k :| k in o1 && k in src && canon(k) == c && h1[c] == src[k];
    }
  }

  /** A `range` over a Go map visits every key of the map exactly once, and nothing else. */
  ghost predicate Enumerates(order: seq<string>, src: map<string, string>) {
    NoDuplicates(order) && forall k :: k in order <==> k in src
  }

  /** The header orders of every record are enumerations of that record's header maps. */
  ghost predicate Visits(records: seq<Record>, env: Env) {
    forall i :: 0 <= i < |records| ==>
      && Enumerates(env.requestOrder(i), records[i].request.headers)
      && Enumerates(env.responseOrder(i), records[i].response.headers)
  }

  /** Ranging over the whole map: every source key is present under its canonical name, and
      nothing else is; when no two keys collide, each holds its own value. */
  lemma HeadersOfEnumeration(order: seq<string>, src: map<string, string>, canon: string -> string)
    requires Enumerates(order, src)
    ensures Headers(order, src, canon).Keys == set k | k in src :: canon(k)
    ensures CanonInjective(src, canon) ==>
      forall k :: k in src ==> Headers(order, src, canon)[canon(k)] == src[k]
  {
    var visited, all := set k | k in order && k in src :: canon(k), set k | k in src :: canon(k);
    forall c | c in all
      ensures c in visited
    {
      var k :| k in src && canon(k) == c;
      assert k in order;
    }
    assert visited == all;
    if CanonInjective(src, canon) {
      HeadersKeepValues(order, src, canon);
    }
  }

  /** The loop `for key, value := range headers { header.Set(key, value) }`. */
  method SetHeaders(order: seq<string>, src: map<string, string>, canon: string -> string)
    returns (h: map<string, string>)
    ensures h == Headers(order, src, canon)
  {
    h := map[];
    for i := 0 to |order|
      invariant h == Headers(order[..i], src, canon)
    {
      assert order[..i + 1][..i] == order[..i];
      if order[i] in src {
        h := h[canon(order[i]) := src[order[i]]];
      }
    }
    assert order[..|order|] == order;
  }

  /** `http.NewRequest` sends a request with no method as a `GET`. */
  function RequestMethod(verb: string): string {
    if verb == "" then "GET" else verb
  }

  /** `createHTTPRequest`: fails on a path `url.Parse` rejects, a body that cannot be
      marshalled, or a request `http.NewRequest` refuses; a record without a method becomes
      a `GET`. */
  function RequestFor(req: Request, env: Env, order: seq<string>): (r: Result<HttpRequest, string>)
    ensures r.Ok? <==>
      && env.parseUrl(req.path).Some?
      && (req.body.None? || env.marshal(req.body.value).Some?)
      && env.acceptsRequest(RequestMethod(req.verb), env.parseUrl(req.path).value)
    ensures r.Ok? ==>
      && (req.verb != "" ==> r.value.verb == req.verb)
      && (req.verb == "" ==> r.value.verb == "GET")
      && r.value.url == env.parseUrl(req.path).value
      && (r.value.body.None? <==> req.body.None?)
      && r.value.header == Headers(order, req.headers, env.canon)
  {
    match env.parseUrl(req.path)
    case None => Err("invalid path")
    case Some(url) =>
      match EncodeBody(req.body, env.marshal)
      case Err(e) => Err(e)
      case Ok(body) =>
        var verb := RequestMethod(req.verb);
        if env.acceptsRequest(verb, url)
        then Ok(HttpRequest(verb, url, Headers(order, req.headers, env.canon), body))
        else Err("failed to create HTTP request")
  }

  method CreateHttpRequest(req: Request, env: Env, order: seq<string>) returns (r: Result<HttpRequest, string>)
    ensures r == RequestFor(req, env, order)
  {
    var url := env.parseUrl(req.path);
    if url.None? {
      return Err("invalid path");
    }
    var body := EncodeBody(req.body, env.marshal);
    if body.Err? {
      return Err(body.error);
    }
    var verb := RequestMethod(req.verb);
    if !env.acceptsRequest(verb, url.value) {
      return Err("failed to create HTTP request");
    }
    var header := SetHeaders(order, req.headers, env.canon);
    r := Ok(HttpRequest(verb, url.value, header, body.value));
  }

  /** `createHTTPResponse`: fails only on a body that cannot be marshalled; the status code is
      the recorded status. */
  function ResponseFor(resp: Response, req: HttpRequest, env: Env, order: seq<string>): (r: Result<HttpResponse, string>)
    ensures r.Ok? <==> resp.body.None? || env.marshal(resp.body.value).Some?
    ensures r.Ok? ==>
      && r.value.statusCode == resp.status
      && (r.value.body.None? <==> resp.body.None?)
      && r.value.request == req
      && r.value.header == Headers(order, resp.headers, env.canon)
  {
    match EncodeBody(resp.body, env.marshal)
    case Err(e) => Err(e)
    case Ok(body) => Ok(HttpResponse(resp.status, Headers(order, resp.headers, env.canon), body, req))
  }

  method CreateHttpResponse(resp: Response, req: HttpRequest, env: Env, order: seq<string>)
    returns (r: Result<HttpResponse, string>)
    ensures r == ResponseFor(resp, req, env, order)
  {
    var body := EncodeBody(resp.body, env.marshal);
    if body.Err? {
      return Err(body.error);
    }
    var header := SetHeaders(order, resp.headers, env.canon);
    r := Ok(HttpResponse(resp.status, header, body.value, req));
  }

  datatype Verdict = Valid | Invalid | Skipped

  /** How record `i` is counted: skipped when its request or response cannot be built (even if
      the request has already failed validation), valid when neither validation reports an
      error, invalid otherwise. */
  function Classify(rec: Record, i: nat, env: Env): Verdict {
    match RequestFor(rec.request, env, env.requestOrder(i))
    case Err(_) => Skipped
    case Ok(req) =>
      match ResponseFor(rec.response, req, env, env.responseOrder(i))
      case Err(_) => Skipped
      case Ok(resp) =>
        if env.requestErrors(req) == 0 && env.responseErrors(req, resp) == 0 then Valid else Invalid
  }

  /** A record is valid exactly when both messages are built and neither validation reports an
      error; it is skipped exactly when one of them cannot be built. */
  lemma ClassifyCases(rec: Record, i: nat, env: Env)
    ensures var req := RequestFor(rec.request, env, env.requestOrder(i));
      Classify(rec, i, env) == Skipped <==>
        req.Err? || ResponseFor(rec.response, req.value, env, env.responseOrder(i)).Err?
    ensures var req := RequestFor(rec.request, env, env.requestOrder(i));
      Classify(rec, i, env) == Valid <==>
        && req.Ok?
        && ResponseFor(rec.response, req.value, env, env.responseOrder(i)).Ok?
        && env.requestErrors(req.value) == 0
        && env.responseErrors(req.value, ResponseFor(rec.response, req.value, env, env.responseOrder(i)).value) == 0
  {
  }

  function Verdicts(records: seq<Record>, env: Env): (vs: seq<Verdict>)
    ensures |vs| == |records|
    ensures forall i :: 0 <= i < |records| ==> vs[i] == Classify(records[i], i, env)
  {
    if records == [] then []
    else Verdicts(records[..|records| - 1], env) + [Classify(records[|records| - 1], |records| - 1, env)]
  }

  function Count(vs: seq<Verdict>, v: Verdict): nat {
    if vs == [] then 0 else Count(vs[..|vs| - 1], v) + (if vs[|vs| - 1] == v then 1 else 0)
  }

  /** Every record is counted exactly once among valid, invalid and skipped. */
  lemma {:induction false} CountsPartition(vs: seq<Verdict>)
    ensures Count(vs, Valid) + Count(vs, Invalid) + Count(vs, Skipped) == |vs|
  {
    if vs != [] {
      CountsPartition(vs[..|vs| - 1]);
    }
  }

  /**
   * The main loop: `validCount` and `invalidCount` are the numbers of records classified valid
   * and invalid, so together they never exceed the number of records.
   */
  method Tally(records: seq<Record>, env: Env) returns (validCount: nat, invalidCount: nat)
    requires Visits(records, env)
    ensures validCount == Count(Verdicts(records, env), Valid)
    ensures invalidCount == Count(Verdicts(records, env), Invalid)
    ensures validCount + invalidCount <= |records|
  {
    ghost var vs := Verdicts(records, env);
    validCount, invalidCount := 0, 0;
    for i := 0 to |records|
      invariant validCount == Count(vs[..i], Valid)
      invariant invalidCount == Count(vs[..i], Invalid)
    {
      assert vs[..i + 1][..i] == vs[..i];
      var isValid := true;
      var req := CreateHttpRequest(records[i].request, env, env.requestOrder(i));
      if req.Err? {
        continue;
      }
      if env.requestErrors(req.value) > 0 {
        isValid := false;
      }
      var resp := CreateHttpResponse(records[i].response, req.value, env, env.responseOrder(i));
      if resp.Err? {
        continue;
      }
      if env.responseErrors(req.value, resp.value) > 0 {
        isValid := false;
      }
      if isValid {
        validCount := validCount + 1;
      } else {
        invalidCount := invalidCount + 1;
      }
    }
    assert vs[..|records|] == vs;
    CountsPartition(vs);
  }

  /**
   * `main`: a wrong argument count, or a document or record file that cannot be read or
   * parsed (`loaded` is `None`), ends the program with status 1 and no counts; otherwise the
   * records are tallied.
   */
  method Validate(args: seq<string>, loaded: Option<seq<Record>>, env: Env)
    returns (exitCode: int, counts: Option<(nat, nat)>)
    requires loaded.Some? ==> Visits(loaded.value, env)
    ensures Arguments(args).None? || loaded.None? <==> exitCode == 1
    ensures exitCode == 1 <==> counts.None?
    ensures exitCode != 1 ==>
      && exitCode == 0
      && counts.value == (Count(Verdicts(loaded.value, env), Valid), Count(Verdicts(loaded.value, env), Invalid))
  {
    if Arguments(args).None? || loaded.None? {
      return 1, None;
    }
    var valid, invalid := Tally(loaded.value, env);
    return 0, Some((valid, invalid));
  }
}
