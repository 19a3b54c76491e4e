/** The response record a handler produces, and its getters (Response.go). */
module Responses {
  import opened Base

  datatype RedirectInfo = RedirectInfo(DoRedirect: bool, Destination: string)

  /** StatusCode 0 is Go's zero value: no builder has set a status yet. */
  datatype Response = Response(
    StatusCode: int,
    Headers: StringMap,
    Content: Bytes,
    Redirect: RedirectInfo)

  /** The zero value a request starts with. */
  const Empty := Response(0, map[], "", RedirectInfo(false, ""))

  function GetResponseStatusCode(r: Response): int
  {
    r.StatusCode
  }

  function GetResponseHeaders(r: Response): StringMap
  {
    r.Headers
  }

  function GetResponseContent(r: Response): Bytes
  {
    r.Content
  }

  /** The redirect target, or "" when no redirect is requested or the target is
      empty. */
  function GetResponseRedirect(r: Response): (dest: string)
    ensures dest != "" <==> r.Redirect.DoRedirect && r.Redirect.Destination != ""
    ensures dest != "" ==> dest == r.Redirect.Destination
  {
    if !r.Redirect.DoRedirect || |r.Redirect.Destination| < 1 then ""
    else r.Redirect.Destination
  }
}
