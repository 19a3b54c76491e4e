/** The response builders Success, Error, Response, Redirect, PermanentRedirect
    and SetResponseHeader/SetHeader. Request.go and call.go each carry a copy of
    this code; both copies are modelled here once, as transformers of the
    response record. */
module Builder {
  import opened Base
  import opened GoText
  import opened Content
  import opened Responses

  const StatusOK: int := 200
  const StatusBadRequest: int := 400
  const StatusFound: int := 302
  const StatusMovedPermanently: int := 301

  /** Success: the status from the arguments (default 200), the body appended. */
  function Success(r: Response, args: seq<Arg>): (r': Response)
    ensures r'.StatusCode == StatusCode(StatusOK, args)
    ensures r.Content <= r'.Content && r'.Content[|r.Content|..] == ResponseBody(args)
    ensures r'.Headers == r.Headers && r'.Redirect == r.Redirect
  {
    r.(StatusCode := StatusCode(StatusOK, args), Content := r.Content + ResponseBody(args))
  }

  /** Error: the status from the arguments (default 400), the body appended. */
  function Error(r: Response, args: seq<Arg>): (r': Response)
    ensures r'.StatusCode == StatusCode(StatusBadRequest, args)
    ensures r.Content <= r'.Content && r'.Content[|r.Content|..] == ResponseBody(args)
    ensures r'.Headers == r.Headers && r'.Redirect == r.Redirect
  {
    r.(StatusCode := StatusCode(StatusBadRequest, args), Content := r.Content + ResponseBody(args))
  }

  /** Response: a status that is already set (at least 1) is kept; an unset one
      is chosen as Success would. The body is always appended. */
  function Respond(r: Response, args: seq<Arg>): (r': Response)
    ensures r.StatusCode >= 1 ==> r'.StatusCode == r.StatusCode
    ensures r.StatusCode < 1 ==> r'.StatusCode == StatusCode(StatusOK, args)
    ensures r.Content <= r'.Content && r'.Content[|r.Content|..] == ResponseBody(args)
    ensures r'.Headers == r.Headers && r'.Redirect == r.Redirect
  {
    var code := if r.StatusCode < 1 then StatusCode(StatusOK, args) else r.StatusCode;
    r.(StatusCode := code, Content := r.Content + ResponseBody(args))
  }

  /** Redirect (302) and PermanentRedirect (301) share this shape. */
  function RedirectWith(r: Response, code: int, destination: string): (r': Response)
    ensures r'.StatusCode == code
    ensures r'.Redirect.DoRedirect && r'.Redirect.Destination == destination
    ensures r'.Headers == r.Headers && r'.Content == r.Content
  {
    r.(StatusCode := code, Redirect := RedirectInfo(true, destination))
  }

  function Redirect(r: Response, destination: string): (r': Response)
    ensures r'.StatusCode == StatusFound
    ensures r'.Redirect == RedirectInfo(true, destination)
    ensures r'.Headers == r.Headers && r'.Content == r.Content
  {
    RedirectWith(r, StatusFound, destination)
  }

  function PermanentRedirect(r: Response, destination: string): (r': Response)
    ensures r'.StatusCode == StatusMovedPermanently
    ensures r'.Redirect == RedirectInfo(true, destination)
    ensures r'.Headers == r.Headers && r'.Content == r.Content
  {
    RedirectWith(r, StatusMovedPermanently, destination)
  }

  /** SetResponseHeader / SetHeader: one key set, every other key kept. Creating
      the map when it is empty does not change its contents, since a nil and an
      empty map hold the same keys. */
  function SetHeader(r: Response, key: string, value: string): (r': Response)
    ensures key in r'.Headers && r'.Headers[key] == value
    ensures r'.Headers.Keys == r.Headers.Keys + {key}
    ensures forall k | k in r.Headers && k != key :: r'.Headers[k] == r.Headers[k]
    ensures r'.StatusCode == r.StatusCode && r'.Content == r.Content && r'.Redirect == r.Redirect
  {
    r.(Headers := r.Headers[key := value])
  }

  // ---------------------------------------------------------------------------
  // Laws relating the builders to each other and to the getters

  /** Successive body builders accumulate content; the last call decides the
      status. */
  lemma BodiesAccumulate(r: Response, a: seq<Arg>, b: seq<Arg>)
    ensures Success(Error(r, a), b).Content == r.Content + ResponseBody(a) + ResponseBody(b)
    ensures Success(Error(r, a), b).StatusCode == StatusCode(StatusOK, b)
    ensures Error(Success(r, a), b).StatusCode == StatusCode(StatusBadRequest, b)
  {
  }

  /** Once a builder has set a status, Response never changes it. */
  lemma RespondKeepsStatus(r: Response, a: seq<Arg>, b: seq<Arg>, destination: string)
    ensures Respond(Error(r, a), b).StatusCode == Error(r, a).StatusCode
    ensures Respond(Success(r, a), b).StatusCode == Success(r, a).StatusCode
    ensures Respond(Redirect(r, destination), b).StatusCode == StatusFound
    ensures Respond(PermanentRedirect(r, destination), b).StatusCode == StatusMovedPermanently
  {
    assert Error(r, a).StatusCode >= 100 by {
      assert StatusCode(StatusBadRequest, a) == StatusBadRequest || 100 <= StatusCode(StatusBadRequest, a);
    }
    assert Success(r, a).StatusCode >= 100 by {
      assert StatusCode(StatusOK, a) == StatusOK || 100 <= StatusCode(StatusOK, a);
    }
  }

  /** After a redirect the getter reports the destination, unless it is empty;
      the status getter reports the redirect's code, and the headers and content
      getters report what was there before. */
  lemma RedirectGetter(r: Response, destination: string)
    ensures GetResponseRedirect(Redirect(r, destination)) == destination
    ensures GetResponseRedirect(PermanentRedirect(r, destination)) == destination
    ensures GetResponseStatusCode(Redirect(r, destination)) == 302
    ensures GetResponseStatusCode(PermanentRedirect(r, destination)) == 301
    ensures GetResponseContent(Redirect(r, destination)) == GetResponseContent(r)
    ensures GetResponseContent(PermanentRedirect(r, destination)) == GetResponseContent(r)
    ensures GetResponseHeaders(Redirect(r, destination)) == GetResponseHeaders(r)
    ensures GetResponseHeaders(PermanentRedirect(r, destination)) == GetResponseHeaders(r)
  {
  }

  /** A later redirect replaces an earlier one completely. */
  lemma RedirectOverrides(r: Response, first: string, second: string)
    ensures Redirect(PermanentRedirect(r, first), second) == Redirect(r, second)
  {
  }

  /** Header writes: the last write to a key wins, and writes to different keys
      commute. */
  lemma SetHeaderLaws(r: Response, k1: string, v1: string, k2: string, v2: string)
    ensures SetHeader(SetHeader(r, k1, v1), k1, v2) == SetHeader(r, k1, v2)
    ensures k1 != k2 ==> SetHeader(SetHeader(r, k1, v1), k2, v2) == SetHeader(SetHeader(r, k2, v2), k1, v1)
  {
  }

  /** Builders never touch the headers; a header set before a body call is still
      there afterwards. */
  lemma HeaderSurvivesBody(r: Response, key: string, value: string, args: seq<Arg>)
    ensures GetResponseHeaders(Success(SetHeader(r, key, value), args))[key] == value
    ensures GetResponseHeaders(Error(SetHeader(r, key, value), args))[key] == value
  {
  }
}
