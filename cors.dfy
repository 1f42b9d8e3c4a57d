/**
 * `CorsMiddleware`: answers preflight (`OPTIONS`) requests itself and
 * adds the `Access-Control-*` headers to every response, echoing the
 * request's origin only when it is on the allow-list.
 */
module Cors {
  import opened Wrappers
  import opened Sequences
  import opened Strings
  import opened PhpArrays

  const DEFAULT_ALLOWED_ORIGINS: seq<string> :=
    ["http://localhost:3000", "http://localhost:3001", "http://127.0.0.1:3000", "http://127.0.0.1:3001"]
  const DEFAULT_ALLOWED_METHODS: string := "GET, POST, PUT, DELETE, PATCH, OPTIONS"
  const DEFAULT_ALLOWED_HEADERS: string := "Content-Type, Authorization, X-Requested-With, Accept"
  const MAX_AGE: int := 86400

  const ALLOW_ORIGIN: string := "Access-Control-Allow-Origin"
  const ALLOW_METHODS: string := "Access-Control-Allow-Methods"
  const ALLOW_HEADERS: string := "Access-Control-Allow-Headers"
  const MAX_AGE_HEADER: string := "Access-Control-Max-Age"

  /** The middleware's constructor arguments. */
  datatype CorsConfig = CorsConfig(
    allowedOrigins: seq<string>,
    allowedMethods: string,
    allowedHeaders: string,
    extraAllowedHeaders: seq<string>,
    maxAge: int)

  /** The middleware built with no arguments. */
  function DefaultConfig(): (c: CorsConfig)
    ensures c.allowedOrigins == DEFAULT_ALLOWED_ORIGINS && c.extraAllowedHeaders == [] && c.maxAge == 86400
  {
    CorsConfig(DEFAULT_ALLOWED_ORIGINS, DEFAULT_ALLOWED_METHODS, DEFAULT_ALLOWED_HEADERS, [], MAX_AGE)
  }

  // ------------------------------------------------------------ the origin

  /** `$request->getHeaderLine('Origin') ?: '*'`: a falsy header line counts as `*`. */
  function RequestOrigin(headerLine: string): (o: string)
    ensures o == (if IsFalsy(headerLine) then "*" else headerLine)
    ensures o != ""
  {
    if IsFalsy(headerLine) then "*" else headerLine
  }

  /** `resolveOrigin`: the origin itself when it is on the allow-list, `*` otherwise. */
  function ResolveOrigin(config: CorsConfig, origin: string): (r: string)
    ensures origin == "" || origin == "*" ==> r == "*"
    ensures origin != "" && origin != "*" ==> (r == origin <==> origin in config.allowedOrigins)
    ensures r == origin || r == "*"
  {
    if origin == "" || origin == "*" then "*"
    else if origin in config.allowedOrigins then origin
    else "*"
  }

  // ------------------------------------------------------------ the allowed headers

  /** `array_map('trim', ...)`. */
  function TrimAll(parts: seq<string>): (r: seq<string>)
    ensures |r| == |parts|
    ensures forall i :: 0 <= i < |parts| ==> r[i] == Trim(parts[i])
  {
    seq(|parts|, i requires 0 <= i < |parts| => Trim(parts[i]))
  }

  /** `array_filter` without a callback, on strings: drops `''` and `'0'`, keeps the order of the rest. */
  function DropFalsy(parts: seq<string>): (r: seq<string>)
    ensures forall x :: x in r <==> x in parts && !IsFalsy(x)
    ensures |r| <= |parts|
  {
    if parts == [] then []
    else (if IsFalsy(parts[0]) then [] else [parts[0]]) + DropFalsy(parts[1..])
  }

  /** Dropping falsy strings from a concatenation drops them from each part: the rest keep their order. */
  lemma {:induction false} DropFalsyAppend(a: seq<string>, b: seq<string>)
    ensures DropFalsy(a + b) == DropFalsy(a) + DropFalsy(b)
  {
    if a == [] {
      assert a + b == b;
    } else {
      assert (a + b)[1..] == a[1..] + b;
      assert (a + b)[0] == a[0];
      DropFalsyAppend(a[1..], b);
    }
  }

  /** The header names `mergeAllowedHeaders` joins, in order. */
  function AllowedHeaderList(config: CorsConfig): (hs: seq<string>)
    ensures Distinct(hs)
  {
    Dedup(DropFalsy(TrimAll(Explode(',', config.allowedHeaders))) + config.extraAllowedHeaders)
  }

  /** `mergeAllowedHeaders`. */
  function MergeAllowedHeaders(config: CorsConfig): string {
    Implode(", ", AllowedHeaderList(config))
  }

  /**
   * The merged list names each header once: every non-empty trimmed entry
   * of the configured list and every extra header (untrimmed), and nothing
   * else; configured entries come before extra ones that are new.
   */
  lemma AllowedHeaderListContents(config: CorsConfig)
    ensures Distinct(AllowedHeaderList(config))
    ensures forall h :: h in AllowedHeaderList(config) <==>
              (h in TrimAll(Explode(',', config.allowedHeaders)) && !IsFalsy(h)) || h in config.extraAllowedHeaders
    ensures var base := DropFalsy(TrimAll(Explode(',', config.allowedHeaders)));
            forall h, x :: h in base && x in config.extraAllowedHeaders && x !in base ==>
              IndexOf(AllowedHeaderList(config), h) < IndexOf(AllowedHeaderList(config), x)
  {
    var base := DropFalsy(TrimAll(Explode(',', config.allowedHeaders)));
    var all := base + config.extraAllowedHeaders;
    forall h | h in all ensures h in Dedup(all) {
      var i :| 0 <= i < |all| && all[i] == h;
    }
    forall h | h in Dedup(all) ensures h in all {
      var i :| 0 <= i < |Dedup(all)| && Dedup(all)[i] == h;
    }
    forall h, x | h in base && x in config.extraAllowedHeaders && x !in base
      ensures IndexOf(Dedup(all), h) < IndexOf(Dedup(all), x)
    {
      DedupOrder(all, h, x);
      IndexOfAppend(base, config.extraAllowedHeaders, h);
      IndexOfAppend(base, config.extraAllowedHeaders, x);
    }
  }

  // ------------------------------------------------------------ responses

  /** A response: its status and its headers by name. */
  datatype Response = Response(status: int, headers: OMap<string, string>)

  /** `new Response()`: status 200, no headers. */
  const EMPTY_RESPONSE: Response := Response(200, [])

  /** `withHeader`: replaces the header's value, or adds it. */
  function WithHeader(r: Response, name: string, value: string): (r': Response)
    ensures r'.status == r.status
    ensures Get(r'.headers, name) == Some(value)
    ensures forall n :: n != name ==> Get(r'.headers, n) == Get(r.headers, n)
  {
    r.(headers := Put(r.headers, name, value))
  }

  lemma HeaderNamesDistinct()
    ensures ALLOW_ORIGIN != ALLOW_METHODS && ALLOW_ORIGIN != ALLOW_HEADERS && ALLOW_ORIGIN != MAX_AGE_HEADER
    ensures ALLOW_METHODS != ALLOW_HEADERS && ALLOW_METHODS != MAX_AGE_HEADER && ALLOW_HEADERS != MAX_AGE_HEADER
  {
    assert ALLOW_METHODS[21] != ALLOW_HEADERS[21];
  }

  /** `withCorsHeaders`. */
  method WithCorsHeaders(config: CorsConfig, response: Response, origin: string, isPreflight: bool)
    returns (r: Response)
    ensures r.status == response.status
    ensures Get(r.headers, ALLOW_ORIGIN) == Some(origin)
    ensures Get(r.headers, ALLOW_METHODS) == Some(config.allowedMethods)
    ensures Get(r.headers, ALLOW_HEADERS) == Some(MergeAllowedHeaders(config))
    ensures Get(r.headers, MAX_AGE_HEADER) ==
              if isPreflight then Some(IntToString(config.maxAge)) else Get(response.headers, MAX_AGE_HEADER)
    ensures forall n :: n != ALLOW_ORIGIN && n != ALLOW_METHODS && n != ALLOW_HEADERS && n != MAX_AGE_HEADER ==>
              Get(r.headers, n) == Get(response.headers, n)
  {
    HeaderNamesDistinct();
    var withOrigin := WithHeader(response, ALLOW_ORIGIN, origin);
    var withMethods := WithHeader(withOrigin, ALLOW_METHODS, config.allowedMethods);
    r := WithHeader(withMethods, ALLOW_HEADERS, MergeAllowedHeaders(config));
    assert Get(r.headers, MAX_AGE_HEADER) == Get(withMethods.headers, MAX_AGE_HEADER)
                                         == Get(withOrigin.headers, MAX_AGE_HEADER)
                                         == Get(response.headers, MAX_AGE_HEADER);
    if isPreflight {
      r := WithHeader(r, MAX_AGE_HEADER, IntToString(config.maxAge));
    }
  }

  /**
   * `process`. `handled` is what the next handler would answer; the
   * second result says whether the handler was called.
   */
  method Process(config: CorsConfig, requestMethod: string, originLine: string, handled: Response)
    returns (r: Response, handlerCalled: bool)
    ensures handlerCalled <==> requestMethod != "OPTIONS"
    ensures r.status == if handlerCalled then handled.status else 200
    ensures Get(r.headers, ALLOW_ORIGIN) == Some(ResolveOrigin(config, RequestOrigin(originLine)))
    ensures Get(r.headers, ALLOW_METHODS) == Some(config.allowedMethods)
    ensures Get(r.headers, ALLOW_HEADERS) == Some(MergeAllowedHeaders(config))
    ensures !handlerCalled ==> Get(r.headers, MAX_AGE_HEADER) == Some(IntToString(config.maxAge))
    ensures handlerCalled ==> Get(r.headers, MAX_AGE_HEADER) == Get(handled.headers, MAX_AGE_HEADER)
    ensures !handlerCalled ==> forall n :: n != ALLOW_ORIGIN && n != ALLOW_METHODS && n != ALLOW_HEADERS && n != MAX_AGE_HEADER ==>
              Get(r.headers, n).None?
    ensures handlerCalled ==> forall n :: n != ALLOW_ORIGIN && n != ALLOW_METHODS && n != ALLOW_HEADERS && n != MAX_AGE_HEADER ==>
              Get(r.headers, n) == Get(handled.headers, n)
  {
    var origin := if !IsFalsy(originLine) then originLine else "*";
    var responseOrigin := ResolveOrigin(config, origin);
    if requestMethod == "OPTIONS" {
      r := WithCorsHeaders(config, EMPTY_RESPONSE, responseOrigin, true);
      return r, false;
    }
    r := WithCorsHeaders(config, handled, responseOrigin, false);
    return r, true;
  }
}
