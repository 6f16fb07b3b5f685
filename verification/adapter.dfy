/**
 * The transport adapter's pure part (src/adapter/index.js): the batch size,
 * the URL of each call, its HTTP method and parameters, and the options
 * handed to `fetch`. Sending the request is not modelled.
 */
module Adapter {
  import opened Values
  import opened Utils

  const DefaultChunkSize: nat := 20
  const DefaultContentType: string := "application/json; charset=utf-8"

  /** `getChunkSize`: the most ids one batched fetch may carry. */
  function GetChunkSize(): (r: nat)
    ensures r == 20
  {
    DefaultChunkSize
  }

  /**
   * `getHost`, `getNamespace` and `getPathForType`, which subclasses
   * override: the adapter's answers to them.
   */
  datatype Config = Config(host: string, namespace: string, pathForType: string -> string)

  /** `encodeURIComponent`, which is not modelled: supplied by the caller. */
  type Encoder = Value -> string

  /** The base class's `getPathForType`: the plural of the type name. */
  function GetPathForType(typeName: string): (r: string)
    ensures r == Pluralize(typeName) && r != ""
  {
    Pluralize(typeName)
  }

  /** The base adapter: no host, no namespace, plural paths. */
  const DefaultConfig: Config := Config("", "", GetPathForType)

  /** `Array.prototype.join`. */
  function Join(parts: seq<string>, sep: string): string
    decreases |parts|
  {
    if parts == [] then ""
    else if |parts| == 1 then parts[0]
    else Join(parts[..|parts| - 1], sep) + sep + parts[|parts| - 1]
  }

  /** The non-empty URL segments, in the fixed order host, namespace, path, id. */
  function Segments(cfg: Config, encode: Encoder, typeName: string, id: Value): seq<string> {
    (if cfg.host != "" then [cfg.host] else [])
    + (if cfg.namespace != "" then [cfg.namespace] else [])
    + (if typeName != "" && cfg.pathForType(typeName) != "" then [cfg.pathForType(typeName)] else [])
    + (if Truthy(id) then [encode(id)] else [])
  }

  /** The URL `buildUrl` returns: the segments joined by '/', rooted when there is no host. */
  function Url(cfg: Config, encode: Encoder, typeName: string, id: Value): string {
    var joined := Join(Segments(cfg, encode, typeName, id), "/");
    if cfg.host == "" then "/" + joined else joined
  }

  /** `buildUrl`: pushes the segments present onto a list, joins it, roots it. */
  method BuildUrl(cfg: Config, encode: Encoder, typeName: string, id: Value) returns (url: string)
    ensures url == Url(cfg, encode, typeName, id)
  {
    var parts: seq<string> := [];
    if cfg.host != "" {
      parts := parts + [cfg.host];
    }
    if cfg.namespace != "" {
      parts := parts + [cfg.namespace];
    }
    if typeName != "" {
      var path := cfg.pathForType(typeName);
      if path != "" {
        parts := parts + [path];
      }
    }
    if Truthy(id) {
      parts := parts + [encode(id)];
    }
    assert parts == Segments(cfg, encode, typeName, id);
    url := Join(parts, "/");
    if cfg.host == "" {
      url := "/" + url;
    }
  }

  /** Joining one more part puts the separator between it and the join of the rest. */
  lemma JoinSnoc(parts: seq<string>, last: string, sep: string)
    requires |parts| > 0
    ensures Join(parts + [last], sep) == Join(parts, sep) + sep + last
  {
    assert (parts + [last])[..|parts|] == parts;
  }

  /** With every segment present the URL is host/namespace/path/id. */
  lemma UrlAllSegments(cfg: Config, encode: Encoder, typeName: string, id: Value)
    requires cfg.host != "" && cfg.namespace != "" && typeName != "" && cfg.pathForType(typeName) != "" && Truthy(id)
    ensures Url(cfg, encode, typeName, id)
         == cfg.host + "/" + cfg.namespace + "/" + cfg.pathForType(typeName) + "/" + encode(id)
  {
    var path := cfg.pathForType(typeName);
    assert Segments(cfg, encode, typeName, id) == [cfg.host, cfg.namespace, path] + [encode(id)];
    assert [cfg.host, cfg.namespace, path] == [cfg.host, cfg.namespace] + [path];
    assert [cfg.host, cfg.namespace] == [cfg.host] + [cfg.namespace];
    JoinSnoc([cfg.host], cfg.namespace, "/");
    JoinSnoc([cfg.host, cfg.namespace], path, "/");
    JoinSnoc([cfg.host, cfg.namespace, path], encode(id), "/");
  }

  /** A path override that answers '' drops the path segment, as for an empty type name. */
  lemma EmptyPathDropped(cfg: Config, encode: Encoder, typeName: string, id: Value)
    requires cfg.pathForType(typeName) == ""
    ensures Segments(cfg, encode, typeName, id) == Segments(cfg, encode, "", id)
    ensures Url(cfg, encode, typeName, id) == Url(cfg, encode, "", id)
  {
  }

  /** Without a host the URL is rooted at '/'. */
  lemma UrlRootedWithoutHost(cfg: Config, encode: Encoder, typeName: string, id: Value)
    requires cfg.host == ""
    ensures var url := Url(cfg, encode, typeName, id); |url| > 0 && url[0] == '/'
  {
  }

  /** The default adapter's collection URL is "/" + the plural; its record URL adds the encoded id. */
  lemma DefaultUrls(encode: Encoder, typeName: string, id: Value)
    requires typeName != ""
    ensures !Truthy(id) ==> Url(DefaultConfig, encode, typeName, id) == "/" + Pluralize(typeName)
    ensures Truthy(id) ==> Url(DefaultConfig, encode, typeName, id) == "/" + Pluralize(typeName) + "/" + encode(id)
  {
    if Truthy(id) {
      assert Segments(DefaultConfig, encode, typeName, id) == [Pluralize(typeName)] + [encode(id)];
      JoinSnoc([Pluralize(typeName)], encode(id), "/");
    } else {
      assert Segments(DefaultConfig, encode, typeName, id) == [Pluralize(typeName)];
    }
  }

  /**
   * A falsy id leaves the URL without an id segment: a number id of 0 is
   * fetched from the collection URL.
   */
  lemma ZeroIdDropped(encode: Encoder, typeName: string)
    requires typeName != ""
    ensures Url(DefaultConfig, encode, typeName, Num(0)) == Url(DefaultConfig, encode, typeName, Undefined)
  {
    DefaultUrls(encode, typeName, Num(0));
    DefaultUrls(encode, typeName, Undefined);
  }

  // ---------------------------------------------------------------------
  // The calls

  /** The `params` of `request`: query parameters and body, `undefined` when absent. */
  datatype Params = Params(queryParams: Value, body: Value)

  datatype Request = Request(url: string, httpMethod: string, params: Params)

  function FindEntity(cfg: Config, encode: Encoder, typeName: string, id: Value): Request {
    Request(Url(cfg, encode, typeName, id), "GET", Params(Undefined, Undefined))
  }

  function FindEntities(cfg: Config, encode: Encoder, typeName: string, ids: seq<Value>): Request {
    Request(Url(cfg, encode, typeName, Undefined), "GET", Params(Obj(map["ids" := Arr(ids)]), Undefined))
  }

  function Query(cfg: Config, encode: Encoder, typeName: string, queryParams: Value): Request {
    Request(Url(cfg, encode, typeName, Undefined), "GET", Params(queryParams, Undefined))
  }

  function CreateEntity(cfg: Config, encode: Encoder, typeName: string, data: Value): Request {
    Request(Url(cfg, encode, typeName, Undefined), "POST", Params(Undefined, data))
  }

  function UpdateEntity(cfg: Config, encode: Encoder, typeName: string, id: Value, data: Value): Request {
    Request(Url(cfg, encode, typeName, id), "PUT", Params(Undefined, data))
  }

  function DeleteEntity(cfg: Config, encode: Encoder, typeName: string, id: Value): Request {
    Request(Url(cfg, encode, typeName, id), "DELETE", Params(Undefined, Undefined))
  }

  /**
   * Which calls put the id in the URL and which HTTP method each uses:
   * single-record calls carry the id, collection calls never do; only
   * create and update send a body, only the finds and query send query
   * parameters.
   */
  lemma CallTable(cfg: Config, encode: Encoder, typeName: string, id: Value, ids: seq<Value>,
                  queryParams: Value, data: Value)
    ensures FindEntity(cfg, encode, typeName, id) == Request(Url(cfg, encode, typeName, id), "GET", Params(Undefined, Undefined))
    ensures UpdateEntity(cfg, encode, typeName, id, data).url == Url(cfg, encode, typeName, id)
    ensures UpdateEntity(cfg, encode, typeName, id, data).httpMethod == "PUT"
    ensures DeleteEntity(cfg, encode, typeName, id).url == Url(cfg, encode, typeName, id)
    ensures DeleteEntity(cfg, encode, typeName, id).httpMethod == "DELETE"
    ensures FindEntities(cfg, encode, typeName, ids).url == Url(cfg, encode, typeName, Undefined)
    ensures FindEntities(cfg, encode, typeName, ids).httpMethod == "GET"
    ensures FindEntities(cfg, encode, typeName, ids).params.queryParams == Obj(map["ids" := Arr(ids)])
    ensures Query(cfg, encode, typeName, queryParams).url == Url(cfg, encode, typeName, Undefined)
    ensures Query(cfg, encode, typeName, queryParams).httpMethod == "GET"
    ensures CreateEntity(cfg, encode, typeName, data).url == Url(cfg, encode, typeName, Undefined)
    ensures CreateEntity(cfg, encode, typeName, data).httpMethod == "POST"
    ensures CreateEntity(cfg, encode, typeName, data).params.body == data
    ensures UpdateEntity(cfg, encode, typeName, id, data).params.body == data
  {
  }

  /** A collection URL never carries an id, whatever id a caller passes. */
  lemma CollectionUrlHasNoId(cfg: Config, encode: Encoder, typeName: string, id: Value)
    ensures Url(cfg, encode, typeName, Undefined) == Url(cfg, encode, typeName, Bool(false))
    ensures Truthy(id) ==> |Segments(cfg, encode, typeName, id)| == |Segments(cfg, encode, typeName, Undefined)| + 1
  {
  }

  // ---------------------------------------------------------------------
  // Fetch options

  /** A headers object; `getFetchOptions` may add a content type to it in place. */
  class Headers {
    var fields: map<string, Value>

    constructor (fields: map<string, Value>)
      ensures this.fields == fields
    {
      this.fields := fields;
    }
  }

  /** The body `fetch` gets: a plain object is JSON text (not modelled further), anything else as is. */
  datatype Body = Raw(value: Value) | JsonText(of: Value)

  datatype FetchOptions = FetchOptions(signal: Option<Signal>, headers: Headers?, body: Option<Body>)

  /** A body is sent only when it is truthy and the method is neither GET nor HEAD. */
  predicate SendsBody(httpMethod: string, body: Value) {
    Truthy(body) && httpMethod != "GET" && httpMethod != "HEAD"
  }

  function HeaderValue(fields: map<string, Value>, name: string): Value {
    if name in fields then fields[name] else Undefined
  }

  /**
   * The headers after defaulting: 'content-type' is added only when neither
   * spelling holds a truthy value; no other header is touched.
   */
  function WithDefaultContentType(fields: map<string, Value>): (r: map<string, Value>)
    ensures var missing := !Truthy(HeaderValue(fields, "Content-Type")) && !Truthy(HeaderValue(fields, "content-type"));
      && (missing ==> r.Keys == fields.Keys + {"content-type"} && r["content-type"] == Str(DefaultContentType))
      && (!missing ==> r == fields)
      && (forall name :: name in fields && name != "content-type" ==> name in r && r[name] == fields[name])
      && (forall name :: name in fields && Truthy(fields[name]) ==> r[name] == fields[name])
  {
    if !Truthy(HeaderValue(fields, "Content-Type")) && !Truthy(HeaderValue(fields, "content-type")) then
      fields["content-type" := Str(DefaultContentType)]
    else fields
  }

  /**
   * `getFetchOptions`: the caller's signal and headers; when a body is
   * sent, a headers object (the caller's own, changed in place, or a fresh
   * one) defaulted to a JSON content type, and the body itself.
   */
  method GetFetchOptions(httpMethod: string, body: Value, signal: Option<Signal>, headers: Headers?)
    returns (options: FetchOptions)
    modifies headers
    ensures options.signal == signal
    ensures !SendsBody(httpMethod, body) ==>
      options == FetchOptions(signal, headers, None) && (headers != null ==> headers.fields == old(headers.fields))
    ensures SendsBody(httpMethod, body) ==>
      && options.headers != null
      && (headers != null ==> options.headers == headers && headers.fields == WithDefaultContentType(old(headers.fields)))
      && (headers == null ==> fresh(options.headers) && options.headers.fields == WithDefaultContentType(map[]))
      && options.body == Some(if body.Obj? then JsonText(body) else Raw(body))
  {
    options := FetchOptions(signal, headers, None);
    if SendsBody(httpMethod, body) {
      var target := headers;
      if target == null {
        target := new Headers(map[]);
      }
      target.fields := WithDefaultContentType(target.fields);
      options := options.(headers := target);
      if body.Obj? {
        options := options.(body := Some(JsonText(body)));
      } else {
        options := options.(body := Some(Raw(body)));
      }
    }
  }
}
