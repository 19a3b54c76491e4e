/** The request record a handler receives (Request.go): its route parameters,
    the client address rule, the read-once body cache, and the response builders
    acting on the request's own response record. */
module Requests {
  import opened Base
  import opened GoText
  import Content
  import Responses
  import Builder

  /** What reading the request body yields: its bytes, and the read error when
      the read stopped early (the bytes read so far are still returned). The
      source is a stream: once read it is drained. */
  datatype BodySource = BodySource(data: Bytes, failure: Option<string>)

  const Drained := BodySource("", None)

  /** The cache of the body read: content, error, and whether the read happened. */
  datatype BodyCache = BodyCache(content: Bytes, error: Option<string>, processed: bool)

  const Unread := BodyCache("", None, false)

  /** `forwardedFor` is the X-Forwarded-For header value ("" when absent) and
      `remoteAddr` the connection's address, both as net/http supplies them. */
  datatype Request = Request(
    args: StringMap,
    Host: string,
    URL: string,
    UserAgent: string,
    forwardedFor: string,
    remoteAddr: string,
    source: BodySource,
    body: BodyCache,
    response: Responses.Response)

  // ---------------------------------------------------------------------------
  // Route parameters

  /** ArgExists: the pattern bound `name`. GetArg then returns the bound value. */
  function ArgExists(r: Request, name: string): (b: bool)
    ensures b <==> name in r.args
    ensures b ==> GetArg(r, name) == r.args[name]
    ensures !b ==> GetArg(r, name) == ""
  {
    name in r.args
  }

  /** GetArg: the bound value, or "" for a name the pattern did not bind. */
  function GetArg(r: Request, name: string): (v: string)
    ensures v != "" ==> name in r.args && r.args[name] == v
  {
    if name in r.args then r.args[name] else ""
  }

  /** A bound name whose value is "" cannot be told apart from an unbound name
      by GetArg alone; ArgExists tells them apart. */
  lemma EmptyArgAmbiguity(r: Request, name: string)
    requires name in r.args && r.args[name] == ""
    ensures GetArg(r, name) == GetArg(r.(args := r.args - {name}), name)
    ensures ArgExists(r, name) && !ArgExists(r.(args := r.args - {name}), name)
  {
  }

  // ---------------------------------------------------------------------------
  // GetIP

  /** The first comma-separated field of X-Forwarded-For when it is non-empty;
      the connection's address otherwise. */
  function GetIP(r: Request): (ip: string)
    ensures |r.forwardedFor| == 0 || r.forwardedFor[0] == ',' ==> ip == r.remoteAddr
    ensures |r.forwardedFor| > 0 && r.forwardedFor[0] != ',' ==>
      && 0 < |ip| <= |r.forwardedFor|
      && r.forwardedFor[..|ip|] == ip
      && ',' !in ip
      && (|ip| == |r.forwardedFor| || r.forwardedFor[|ip|] == ',')
  {
    var forwardedIPs := Split(r.forwardedFor, ',');
    SplitFirst(r.forwardedFor, ',');
    if |forwardedIPs[0]| < 1 then r.remoteAddr else forwardedIPs[0]
  }

  /** A header listing several proxies yields the first one. */
  lemma GetIPFirstOfMany(r: Request, first: string, rest: string)
    requires first != "" && ',' !in first
    requires r.forwardedFor == first + "," + rest
    ensures GetIP(r) == first
  {
    var f := r.forwardedFor;
    var ip := GetIP(r);
    assert f[..|first|] == first;
    assert f[|first|] == ',';
    assert f[0] == first[0];
  }

  /** A header holding one address yields it; an absent header yields the
      connection's address. */
  lemma GetIPSingle(r: Request)
    ensures ',' !in r.forwardedFor && r.forwardedFor != "" ==> GetIP(r) == r.forwardedFor
    ensures r.forwardedFor == "" ==> GetIP(r) == r.remoteAddr
  {
    var f := r.forwardedFor;
    if ',' !in f && f != "" {
      var ip := GetIP(r);
    }
  }

  // ---------------------------------------------------------------------------
  // The read-once body cache

  /** processBody: the first call reads the source and caches the outcome; later
      calls do nothing. */
  function ProcessBody(r: Request): (r': Request)
    ensures r'.body.processed
    ensures r.body.processed ==> r' == r
    ensures !r.body.processed ==>
      r'.body.content == r.source.data && r'.body.error == r.source.failure && r'.source == Drained
    ensures r'.(body := r.body, source := r.source) == r
  {
    if r.body.processed then r
    else r.(body := BodyCache(r.source.data, r.source.failure, true), source := Drained)
  }

  /** The body as first read, and the request with its cache filled. */
  function Body(r: Request): (res: (Request, Bytes))
    ensures res.0.body.processed && res.1 == res.0.body.content
    ensures res.1 == (if r.body.processed then r.body.content else r.source.data)
  {
    var r' := ProcessBody(r);
    (r', r'.body.content)
  }

  /** The error of the first read, and the request with its cache filled. */
  function BodyError(r: Request): (res: (Request, Option<string>))
    ensures res.0.body.processed && res.1 == res.0.body.error
    ensures res.1 == (if r.body.processed then r.body.error else r.source.failure)
  {
    var r' := ProcessBody(r);
    (r', r'.body.error)
  }

  /** Whether the first read produced any bytes. */
  function HasBody(r: Request): (res: (Request, bool))
    ensures res.0.body.processed
    ensures res.1 <==> |Body(r).1| > 0
  {
    var r' := ProcessBody(r);
    (r', |r'.body.content| > 0)
  }

  /** Processing twice is processing once. */
  lemma ProcessBodyIdempotent(r: Request)
    ensures ProcessBody(ProcessBody(r)) == ProcessBody(r)
  {
  }

  /** The stream is read once: a second Body, BodyError or HasBody reports what
      the first read saw, although the stream is drained by then. */
  lemma BodyReadOnce(r: Request)
    requires !r.body.processed && r.source.data != ""
    ensures Body(r).0.source.data == ""
    ensures Body(Body(r).0).1 == Body(r).1 == r.source.data
    ensures BodyError(Body(r).0).1 == BodyError(r).1 == r.source.failure
    ensures HasBody(Body(r).0).1 && HasBody(r).1
  {
  }

  /** The three accessors agree with each other in any order. */
  lemma BodyAccessorsAgree(r: Request)
    ensures Body(BodyError(r).0).1 == Body(r).1
    ensures BodyError(HasBody(r).0).1 == BodyError(r).1
    ensures HasBody(Body(r).0).1 == HasBody(r).1
    ensures Body(r).0 == BodyError(r).0 == HasBody(r).0
  {
  }

  // ---------------------------------------------------------------------------
  // Builders on the request's response record

  function Success(r: Request, args: seq<Content.Arg>): (r': Request)
    ensures r'.response == Builder.Success(r.response, args)
    ensures r'.(response := r.response) == r
  {
    r.(response := Builder.Success(r.response, args))
  }

  function Error(r: Request, args: seq<Content.Arg>): (r': Request)
    ensures r'.response == Builder.Error(r.response, args)
    ensures r'.(response := r.response) == r
  {
    r.(response := Builder.Error(r.response, args))
  }

  function Respond(r: Request, args: seq<Content.Arg>): (r': Request)
    ensures r'.response == Builder.Respond(r.response, args)
    ensures r'.(response := r.response) == r
  {
    r.(response := Builder.Respond(r.response, args))
  }

  function Redirect(r: Request, destination: string): (r': Request)
    ensures r'.response == Builder.Redirect(r.response, destination)
    ensures r'.(response := r.response) == r
  {
    r.(response := Builder.Redirect(r.response, destination))
  }

  function PermanentRedirect(r: Request, destination: string): (r': Request)
    ensures r'.response == Builder.PermanentRedirect(r.response, destination)
    ensures r'.(response := r.response) == r
  {
    r.(response := Builder.PermanentRedirect(r.response, destination))
  }

  function SetResponseHeader(r: Request, key: string, value: string): (r': Request)
    ensures r'.response == Builder.SetHeader(r.response, key, value)
    ensures r'.(response := r.response) == r
  {
    r.(response := Builder.SetHeader(r.response, key, value))
  }

  function GetResponse(r: Request): Responses.Response
  {
    r.response
  }

  /** A fresh request, as ServeHTTP builds it: the bound parameters, an unread
      body and the zero response. */
  function NewRequest(params: StringMap, host: string, url: string, userAgent: string,
                      forwardedFor: string, remoteAddr: string, source: BodySource): (r: Request)
    ensures r.args == params && r.response == Responses.Empty && !r.body.processed
    ensures Body(r).1 == source.data
  {
    Request(params, host, url, userAgent, forwardedFor, remoteAddr, source, Unread, Responses.Empty)
  }
}
