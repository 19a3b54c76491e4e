# A Dafny model of driscollcode/router

The router is a small Go HTTP routing library. Handlers are registered under
a method and a path pattern, for example `/user/:id` or
`/route/with/[:optional]`. For each request, `ServeHTTP` picks the first
matching route and calls its handler with a request object. The handler
builds a response with the `Success`, `Error`, `Response`, `Redirect` and
`PermanentRedirect` builders. `ServeHTTP` then writes that response with CORS
headers added.

This project models the pure logic behind the `net/http` plumbing. Everything
is immutable datatypes and pure functions:

- `base.dfy` (module `Base`) holds `Option`, byte strings and string maps.
- `gotext.dfy` (module `GoText`) models the Go library calls the router relies on:
  - `strings.Split` and `strings.Trim` with a one-byte separator, with Join as Split's inverse;
  - `strings.Contains` and `strings.EqualFold` (ASCII);
  - `strconv.Itoa` and `strconv.Atoi` for Go's 64-bit `int`.
- `matcher.dfy` (module `Matcher`) models `isAMatch`:
  - root stripping, segment splitting, the segment-count pre-filter, and the walk over `literal`, `:name` and `[:name]` segments;
  - a declarative reading of the walk, proved equal to it;
  - the corrected matcher, beside it (see Findings);
  - concrete cases taken from the routing tests.
- `content.dfy` (module `Content`) models the content coercion shared by `request` and `call`:
  - `getStatusCode`, `getResponseBody` and `getContentAsByte`;
  - a closed variant `Arg` standing for the `interface{}` arguments.
- `responses.dfy` (module `Responses`) models the response record and its getters.
- `builder.dfy` (module `Builder`) models the builders, each a transformer from a response and arguments to a response.
- `request.dfy` (module `Requests`) models the request record:
  - the `ArgExists` and `GetArg` route parameters;
  - the `GetIP` rule for X-Forwarded-For;
  - the read-once body cache;
  - the builders acting on the request's response.
- `call.dfy` (module `Calls`) models the `call` record. Its builders write its own response, not the embedded request's.
- `router.dfy` (module `Router`) models:
  - route registration;
  - `findHandler` as an earliest-match search;
  - `corsInjector`;
  - the `ServeHTTP` decision, as a function from the router, the request, the build date and the handlers' behaviour to the written output.

Handlers are opaque tokens, with `NilHandler` standing for Go's nil func
value. What a handler returns is a function parameter of `ServeHTTP`. A nil
fallback means the fixed 404, and calling a nil route handler panics. A panic in the Go code is an explicit outcome: `Matcher.Panic`
and `Router.Aborted`. It is not excluded by a precondition. A URL shorter than
the root panics inside findHandler; it reaches ServeHTTP as `Router.Panicked`
and gives `Aborted`. net/http recovers a panicking handler goroutine, so
nothing is written.

Routing follows the code as written, including the two defects listed under
Findings. The corrected matcher is kept beside it (`Matcher.IsAMatchIntended`,
`Router.AttemptIntended`), with lemmas that say where the two agree.

The Go sources do not compile as a whole. `Response` is declared as an
interface in Response.go, yet Request.go and Router.go read fields such as
`StatusCode` and `Redirect.DoRedirect` from it. The model uses a single
response record with the field names of Request.go and Router.go:
`StatusCode`, `Headers`, `Content` and `Redirect{DoRedirect, Destination}`.

## Model

| member | source | states |
|---|---|---|
| `GoText.Split` | Router.go:127-128 | strings.Split with a one-byte separator: at least one piece, no piece contains the separator, and joining the pieces gives back the input |
| `GoText.SplitJoin` | Router.go:127-128 | splitting a join of separator-free pieces gives back the pieces (Split and Join are inverse) |
| `GoText.SplitFirst` | Request.go:125-131 | the first piece of a split is the longest separator-free prefix of the input |
| `GoText.Trim` | Router.go:127-128 | strings.Trim with one cut byte: the result neither starts nor ends with it, is empty exactly when the input is all cut bytes, and is the input with a run of cut bytes removed at each end |
| `GoText.EqualFold` | Router.go:108 | strings.EqualFold restricted to ASCII: two methods are equal up to case exactly when lowering their ASCII capitals makes them the same string |
| `GoText.Itoa` | Request.go:237 | strconv.Itoa: a leading '-' exactly for negative numbers, then decimal digits whose value is the magnitude, with no leading zero and never "-0" |
| `GoText.Atoi` | Request.go:249 | strconv.Atoi: accepts exactly an optional sign followed by one or more decimal digits whose value lies in Go's 64-bit int range, and yields that value, negated after a '-' |
| `GoText.AtoiExamples` | Request.go:249 | "+404" and "0404" read as 404; " 404" and "-" are rejected |
| `GoText.ItoaAtoi` | Request.go:237 | Atoi reads back every int written by Itoa |
| `GoText.ItoaCanonical` | Request.go:237 | Itoa writes only canonical numerals: no leading zero, no "-0", no '+' |
| `GoText.CanonicalDigitsUnique` | Request.go:237 | a digit string without a leading zero is the only one written for its value |
| `GoText.AtoiItoa` | Request.go:237 | every canonical numeral in Go's int range is written back unchanged by Itoa after Atoi, so Itoa's text for a value is unique |
| `Matcher.Segments` | Router.go:127-128 | a path trimmed of '/' and split on '/': at least one segment, none containing '/', and joined with '/' they give back the trimmed path |
| `Matcher.SegmentsOfRoot` | Router.go:127-128 | "/" and "" are each one empty segment |
| `Matcher.Name` | Router.go:156-160 | the bound name: `:name` gives name; `[:name]` gives the text between "[:" and the last byte |
| `Matcher.BracketedCountPositions` | Router.go:130-135 | what `mandatoryBits` really counts: the number of positions holding a segment that contains both '[' and ']' |
| `Matcher.MandatoryBits` | Router.go:130-135 | the code's front-to-back counting loop computes the same count |
| `Matcher.MatchBits` | Router.go:127-172 | the walk agrees with the declarative reading `Matcher.Declared`, with the bracketed-segment count as the least URL length. So: no match for more URL segments than pattern segments or fewer than the bracketed ones; a panic exactly when a bare "[:" is reached while everything before it fits; otherwise a match exactly when every pattern segment with a URL segment in its place accepts it and the segment where the URL runs out contains "[:", with params the left-to-right bindings |
| `Matcher.StripRoot` | Router.go:123-125 | with a root, the first len(root) bytes of the URL are cut off unchecked; a URL shorter than the root panics |
| `Matcher.IsAMatch` | Router.go:122-173 | isAMatch as written: a URL shorter than the root panics; otherwise matching runs on the URL minus its first len(root) bytes, with the count pre-filter |
| `Matcher.WalkFrom` | Router.go:141-172 | the loop from any position agrees with the declarative reading (fit, tail rule, bindings, panic) |
| `Matcher.BindAllDomain` | Router.go:156-160 | the bound names are exactly the names of the named segments walked over |
| `Matcher.BindAllValue` | Router.go:156-160 | a named segment binds its name to the URL segment in its place unless a later segment rebinds the name |
| `Matcher.MatchedParams` | Router.go:141-172 | on success the parameter map holds only names from the walk: `:name` and `[:name]` bind the URL segment in their place, and segments past the end of the URL bind nothing |
| `Matcher.LiteralMismatch` | Router.go:162-167 | a literal segment that differs from the URL segment (case-sensitively) defeats the match, giving no match unless a bare "[:" panicked earlier |
| `Matcher.RunsOut` | Router.go:145-153 | running out of URL at a "[:" segment succeeds and leaves the rest unchecked; running out anywhere else fails |
| `Matcher.SegmentsOf` | Router.go:127-128 | a path whose trimmed form joins given slash-free parts splits into those parts |
| `Matcher.MatchBitsIntended` | Router.go:130-139 | the corrected pre-filter: the declarative reading with the number of non-bracketed pattern segments as the least URL length |
| `Matcher.IsAMatchIntended` | Router.go:122-139 | the corrected matcher: a root that is not a prefix of the URL gives no match, never a panic |
| `Matcher.WalkExtendOptional` | Router.go:141-172 | appending a "[:" segment to a pattern does not change the walk over a URL no longer than the original pattern |
| `Matcher.BracketedCountAppend` | Router.go:130-135 | the count grows by one exactly when the appended segment is bracketed |
| `Matcher.IntendedOptionalExtension` | Router.go:130-139 | corrected matcher: appending an optional `[:name]` segment keeps every result for URLs no longer than the original pattern |
| `Matcher.IntendedRootChecked` | Router.go:123-125 | corrected matcher: a URL outside the root never matches |
| `Matcher.MatchersAgree` | Router.go:137-139 | the two pre-filters differ only on URLs one count rule accepts and the other rejects |
| `Matcher.IsAMatchAgrees` | Router.go:122-173 | with the root a prefix of the URL and both count rules passed, the corrected matcher and isAMatch agree |
| `Matcher.AsWrittenOptionalExtensionFails` | Router.go:130-137 | as written, "/a" matches "/a/[:b]" but not "/a/[:b]/[:c]"; the corrected matcher matches both |
| `Matcher.AsWrittenRootUnchecked` | Router.go:123-125 | as written, under root "/prefix" the URL "/abcdef/here" matches "/here" and the URL "/here" panics; the corrected matcher gives no match |
| `Matcher.SegmentsOfThree` | Router.go:127-128 | "/a/b/c" with slash-free non-empty parts splits into [a, b, c] |
| `Matcher.SegmentsOfTwo` | Router.go:127-128 | "/a/b" with slash-free non-empty parts splits into [a, b] |
| `Matcher.NamedSegmentsExample` | unit_test.go:39-45 | "/one/:two/:three" against "/one/blah/works" binds two=blah and three=works |
| `Matcher.OptionalSegmentsExample` | unit_test.go:71-93 | "/route/with/[:optional]/[:parameters]" matches "/route/with" with no params, "/route/with/first" with optional=first, and "/route/with/first/second" with both |
| `Matcher.LiteralExample` | Router_test.go:71-83 | "/undefined/route" does not match "/defined/route" |
| `Matcher.ParamExample` | Router_test.go:87-102 | "/url/param/:one" against "/url/param/working" binds one=working |
| `Content.Pad` | Request.go:221 | zero-padded decimal digits of at least the given width, exactly that width when the number fits, with no leading zero when it does not, reading back as the number |
| `Content.FormatTimeRoundTrip` | Request.go:221 | a time in the layout "2006-01-02 15:04:05" is 19 bytes and parses back to the same time |
| `Content.ContentAsBytes` | Request.go:217-242 | getContentAsByte: a string gives its bytes, []byte passes through, a bool gives "true"/"false", an int its Itoa text, a time its layout text, a float its FormatFloat text, another slice "[" + elements + "]", a struct its JSON text or nothing when marshalling fails, and nil or an unhandled kind gives nothing |
| `Content.VerbText` | Request.go:249 | `fmt.Sprintf("%v", …)` of the first argument: an int prints as text Atoi reads back as the int, a string as itself, a bool as "true"/"false", a []byte as its bytes' decimals between brackets (splitting back on spaces), a time as the layout text followed by " +0000 UTC", a struct between braces, nil as "<nil>", and a float as the `%g`-form text it carries, which may spell a status |
| `Content.ByteListSplits` | Request.go:249 | the space-separated decimals of a non-empty []byte split back into one decimal per byte |
| `Content.ContentReadsBack` | Request.go:236-237 | an int is written in decimal that Atoi reads back; a time is written in the layout and reads back |
| `Content.StatusCode` | Request.go:244-258 | getStatusCode: the default for no arguments; otherwise the integer the first argument's `%v` text spells exactly when it parses and lies in [100, 999], else the default |
| `Content.ConcatMapAppend` | Request.go:202-213 | concatenating the encodings of a + b gives those of a followed by those of b |
| `Content.EncodingsAppend` | Request.go:202-213 | the encodings of a + b are the encodings of a followed by those of b |
| `Content.EncodingsCons` | Request.go:202-213 | the encodings of [a] + rest are a's bytes followed by the encodings of rest |
| `Content.GetResponseBody` | Request.go:196-215 | the loop drops the first argument only when it is an int in [100, 999], and concatenates the encodings of all other arguments in order with no separator |
| `Content.NeverAStatus` | Request.go:249-252 | the `%v` text of a bool, []byte, time, struct, other slice or nil never parses as an integer |
| `Content.LeadingInt` | Request.go:203-207 | a leading int in [100, 999] is the status and is left out of the body; any other leading int keeps the default status and its digits open the body |
| `Content.LeadingString` | Request.go:203-207 | a leading string spelling a code in [100, 999] sets the status yet stays in the body (the asymmetry between the two rules) |
| `Content.LeadingFloat` | Request.go:244-258 | a leading float behaves like a string: its `%v` text decides the status and its FormatFloat text stays in the body |
| `Content.LeadingNonStatus` | Request.go:244-258 | a leading bool, []byte, time, struct, other slice or nil keeps the default status and its encoding opens the body |
| `Responses.GetResponseRedirect` | Response.go:29-33 | "" when no redirect is requested or the destination is empty; the stored destination otherwise |
| `Builder.Success` | Request.go:158-162 | status from the arguments with default 200; the body is appended to the existing content; headers and redirect are kept |
| `Builder.Error` | Request.go:152-156 | status from the arguments with default 400; the body is appended to the existing content; headers and redirect are kept |
| `Builder.Respond` | Request.go:164-170 | an already set status (at least 1) is kept, an unset one is chosen as by Success; the body is always appended |
| `Builder.RedirectWith` | Request.go:138-150 | sets the status, requests the redirect and stores the destination verbatim; content and headers are kept |
| `Builder.Redirect` | Request.go:138-143 | status 302, DoRedirect set, destination verbatim, content and headers unchanged |
| `Builder.PermanentRedirect` | Request.go:145-150 | status 301, DoRedirect set, destination verbatim, content and headers unchanged |
| `Builder.SetHeader` | Request.go:100-105 | exactly one key set to the value; every other key kept; no other field changed |
| `Builder.BodiesAccumulate` | Request.go:152-162 | successive Error and Success calls accumulate content; the last call decides the status |
| `Builder.RespondKeepsStatus` | Request.go:164-170 | once Error, Success, Redirect or PermanentRedirect has set a status, Response does not change it, whatever the arguments and the destination |
| `Builder.RedirectGetter` | Response.go:17-33 | after Redirect or PermanentRedirect, GetResponseRedirect reports the destination, GetResponseStatusCode reports 302 or 301, and GetResponseHeaders and GetResponseContent report what was there before |
| `Builder.RedirectOverrides` | Request.go:138-150 | a later redirect replaces an earlier one completely |
| `Builder.SetHeaderLaws` | Request.go:100-105 | the last write to a key wins; writes to different keys commute |
| `Builder.HeaderSurvivesBody` | Response.go:21-23 | a header set before Success or Error is still reported by the headers getter afterwards |
| `Requests.ArgExists` | Request.go:74-77 | true exactly when the pattern bound the name, in which case GetArg returns the bound value; otherwise GetArg returns "" |
| `Requests.GetArg` | Request.go:79-86 | a non-empty answer is the value bound to the name |
| `Requests.EmptyArgAmbiguity` | Request.go:74-86 | a name bound to "" is indistinguishable from an unbound one through GetArg, but ArgExists tells them apart |
| `Requests.GetIP` | Request.go:124-132 | the first comma-separated field of X-Forwarded-For when it is non-empty, otherwise the connection's address |
| `Requests.GetIPFirstOfMany` | Request.go:124-132 | a header listing several addresses yields the first one |
| `Requests.GetIPSingle` | Request_test.go:125-148 | a header holding one address yields it; an absent header yields the connection's address |
| `Requests.ProcessBody` | Request.go:187-194 | the first call reads and caches the body and error and drains the stream; later calls change nothing |
| `Requests.Body` | Request.go:172-175 | the content of the first read |
| `Requests.BodyError` | Request.go:177-180 | the error of the first read |
| `Requests.HasBody` | Request.go:182-185 | true exactly when the first read produced bytes |
| `Requests.ProcessBodyIdempotent` | Request.go:187-194 | processing twice is processing once |
| `Requests.BodyReadOnce` | Request.go:172-194 | the stream is read once; later Body, BodyError and HasBody calls report the first read, although the stream is drained |
| `Requests.BodyAccessorsAgree` | Request.go:172-194 | Body, BodyError and HasBody agree with each other in any order |
| `Requests.Success` | Request.go:158-162 | Success on a request rewrites only its response record, as Builder.Success does |
| `Requests.Error` | Request.go:152-156 | Error on a request rewrites only its response record |
| `Requests.Respond` | Request.go:164-170 | Response on a request rewrites only its response record |
| `Requests.Redirect` | Request.go:138-143 | Redirect on a request rewrites only its response record |
| `Requests.PermanentRedirect` | Request.go:145-150 | PermanentRedirect on a request rewrites only its response record |
| `Requests.SetResponseHeader` | Request.go:100-105 | SetResponseHeader rewrites only the request's response headers |
| `Requests.NewRequest` | Router.go:84 | a handler's request starts with the bound params, an unread body and the zero response |
| `Calls.SetHeader` | call.go:27-32 | sets one header in the call's own response and leaves the embedded request untouched |
| `Calls.Redirect` | call.go:34-39 | 302 redirect in the call's own response; the embedded request is untouched |
| `Calls.PermanentRedirect` | call.go:41-46 | 301 redirect in the call's own response; the embedded request is untouched |
| `Calls.Success` | call.go:48-52 | Success on the call's own response; the embedded request is untouched |
| `Calls.Error` | call.go:54-58 | Error on the call's own response; the embedded request is untouched |
| `Calls.Respond` | call.go:60-66 | Response on the call's own response; the embedded request is untouched |
| `Calls.SetResponseHeader` | call.go:22-25 | the promoted SetResponseHeader writes the embedded request's response, not the call's |
| `Calls.TwoResponseRecords` | call.go:22-25 | the call's builders and the promoted request methods address two different records; neither kind of write is visible through the other |
| `Calls.CopiesAgree` | call.go:48-130 | the call's copy of the builder computes the same response as the request's copy |
| `Calls.NoArguments` | call_test.go:43-83 | Success() gives 200 and empty content; Error() gives 400 and empty content |
| `Calls.LeadingCode` | call_test.go:63-103 | Success(404, s) gives 404 and s; Error(200, s) gives 200 and s |
| `Calls.OutOfRangeCode` | call_test.go:119-126 | Success(50000, s) gives 200 and "50000" + s |
| `Calls.PlainValues` | call_test.go:85-115 | a string not starting a number is the body with the default status; Success(true) gives "true" |
| `Calls.OtherKinds` | call.go:105-130 | a struct gives its JSON text, []byte passes through, and another slice gives its printed form such as "[One two]", none of them setting the status; the float 1.2 gives "1.2" with the default status |
| `Calls.FloatCode` | call.go:105-130 | Success(404.0, s) sets status 404, because `%v` prints the float as "404", and the body is "404" followed by s |
| `Calls.TimeValue` | call_test.go:139-147 | a time of 2022-01-01 12:00:00 gives the body "2022-01-01 12:00:00" and status 200 |
| `Router.Url` | Router.go:49-55 | registration appends; earlier routes keep their positions; fallback and root are kept |
| `Router.Get` | Router.go:17-19 | registers a "GET" route last |
| `Router.Post` | Router.go:21-23 | registers a "POST" route last |
| `Router.Put` | Router.go:25-27 | registers a "PUT" route last |
| `Router.Patch` | Router.go:29-31 | registers a "PATCH" route last |
| `Router.Delete` | Router.go:33-35 | registers a "DELETE" route last |
| `Router.Route` | Router.go:37-39 | registers a route with the given method, stored verbatim |
| `Router.NotFound` | Router.go:41-43 | replaces the fallback handler only; a nil handler is stored too |
| `Router.Root` | Router.go:45-47 | replaces the URL root only |
| `Router.Attempt` | Router.go:107-116 | a route is tried only when the methods are equal up to ASCII case; then isAMatch decides: a panic when the URL is shorter than the root, otherwise the pattern matched against the URL minus its first len(root) bytes |
| `Router.AttemptIntended` | Router.go:107-116 | the same attempt with the corrected matcher: a root that is not a prefix gives no match |
| `Router.AttemptsAgree` | Router.go:112 | where the root is a prefix and both count rules accept, the corrected attempt equals the Go code's |
| `Router.FindFrom` | Router.go:107-119 | the loop's result is no handler exactly when no remaining route matches; otherwise the earliest route that does not reject decides it (its handler with its params, or the panic) |
| `Router.FindHandler` | Router.go:106-120 | no_handler exactly when no route's method and pattern accept the request; otherwise the earliest route that does not reject decides the result |
| `Router.ShiftDecides` | Router.go:107-110 | a rejecting route does not change which later route decides |
| `Router.DecidesFirst` | Router.go:114-116 | a route whose attempt does not reject decides the lookup, and no later route does |
| `Router.DecidesAtUnique` | Router.go:114-116 | the first accepting route is unique |
| `Router.RegistrationKeepsPriority` | Router.go:49-55 | registering a route never changes a lookup that an earlier route decides; a lookup that found nothing is decided by the new route |
| `Router.AppendFrom` | Router.go:106-120 | the same, for the loop from any position |
| `Router.MethodCaseInsensitive` | Router.go:108 | requests whose methods differ only in ASCII case are routed alike |
| `Router.SameAttempts` | Router.go:107-117 | routes that give equal attempts give equal lookups |
| `Router.CorsInjector` | Router.go:175-179 | sets Access-Control-Allow-Headers and Allow-Origin to "*" and Allow-Methods to "GET,POST,PUT,PATCH,DELETE,OPTIONS", keeping every other header |
| `Router.Overlay` | Router.go:98-100 | handler headers are copied over the preset ones and win on a clash |
| `Router.WriteResponse` | Router.go:87-103 | a redirect writes the status and destination with only the preset headers; otherwise the preset headers overlaid by the handler's, the status and the content; an unset status aborts |
| `Router.ServeHTTP` | Router.go:65-104 | OPTIONS gives 200 with exactly the CORS headers and no body, whatever the routes; every other method is dispatched on the result of findHandler |
| `Router.Dispatch` | Router.go:72-103 | a panic in the lookup aborts; no handler and a nil fallback gives 404 "No provider could be found"; no handler with a fallback runs the fallback with no params; a found nil handler panics when called, so nothing is written; a found handler runs with the bound params; the handler's response is then written |
| `Router.HandlerRequest` | Router.go:84 | the handler sees the bound params, the path and an unread body |
| `Router.OptionsIgnoresRoutes` | Router.go:66-70 | an OPTIONS answer is the same for any routes, fallback, root, build date and handlers |
| `Router.RedirectIgnoresHeadersAndContent` | Router.go:93-96 | a redirect ignores the handler's headers and content |
| `Router.HandlerHeadersOverride` | Router.go:87-103 | outside redirects the handler's headers win, the preset headers it does not set survive, and the body is the content |
| `Router.UntouchedResponseAborts` | Router.go:102 | a handler that set no status gets WriteHeader(0), which aborts |
| `Router.EmptyRouter` | Router.go:72-82 | with no routes every non-OPTIONS request gets the fixed 404, or the fallback with no params, or the fixed 404 again when the fallback is nil |
| `Router.NilNotFoundRestores404` | Router.go:41-43 | NotFound(nil) undoes any earlier fallback: a request no route decides gets the fixed 404 |
| `Router.NilRouteAborts` | Router.go:85 | a route registered with a nil handler that accepts the request makes the call panic, and nothing is written |
| `Router.RootRouteExample` | Router_test.go:24-53 | GET "/" against Get("/", h) runs h with no params and writes its 200 "OK" with the CORS headers |
| `Router.UnmatchedRouteExample` | Router_test.go:71-83 | GET "/undefined/route" against Get("/defined/route", h) gives 404 "No provider could be found" |
| `Router.RootPanicAborts` | Router.go:122-125 | with root "/prefix", GET "/here" against Get("/here", h) panics in findHandler and nothing is written |
| `Router.OptionalRouteRejected` | Router.go:130-139 | GET "/a" against Get("/a/[:b]/[:c]", h) gets the fixed 404 |
| `Router.ParamRouteExample` | Router_test.go:87-102 | GET "/url/param/working" against Get("/url/param/:one", h) runs h with one=working |

## Left out

- `Serve` and `ServeIP` (`http.ListenAndServe`): network I/O.
- Writing to a real `ResponseWriter`: the model stops at the abstract output record.
- `http.Redirect`'s own Location header and short HTML body: not modelled. `Router.Output.Redirected` carries the status, the preset headers and the destination.
- `ResponseWriter.WriteHeader` rejects a status outside [100, 999]: modelled as `Aborted`. No other status validation is modelled.
- `os.Getenv("BuildDate")`: taken as a string parameter of `ServeHTTP`, "" when unset.
- Header canonicalisation (`Header.Set` and `Header.Get`): keys are kept verbatim.
- The X-Forwarded-For value: taken as a field of the request.
- `GetHeader`, `HeaderExists`, `GetHeaders`, `GetPostVariable`, `PostVariableExists`, `GetReferer`, `GetURL`, `GetHost`, `GetUserAgent`, `CreateRequest` and `CreateRequestAdvanced`: thin wrappers over net/http internals (`Header.Get`, `ParseForm`, `FormValue`, `Referer`, `httptest`) that are not part of this model.
- `ioutil.ReadAll`: abstracted to a `BodySource` holding the bytes and an optional error. Only the caching around it is modelled.
- `strconv.FormatFloat`, `json.Marshal`, and fmt's printing of non-byte slices, floats and other kinds: these renderings are carried as data inside the `Arg` variant.
- Time zones, monotonic clock readings and sub-second parts: a time is a plain UTC date-time record. Its `%v` text is the layout followed by " +0000 UTC".
- `Content.ContentAsBytes`: the type assertions `content.(string)`, `content.(int)` and `content.(float64)` panic for a named type whose kind is String, Int or Float64 (such as `type Code int`). `Arg` has no such values, so that panic is not modelled.
- `Content.NeverAStatus`: fmt's `%v` calls the `String` method of a type that has one, so a struct, bool or slice type with a `String` method can spell a status code. `Arg` has no such values, and the lemma covers only the kinds it has.
- Nil versus empty slices and maps for `Content` and `Headers`: the Go code's `make` on first use changes no contents, so both are one value here. Nil versus empty is kept for the match parameters (no match versus an empty map).
- `GoText.EqualFold`: folds ASCII letters only, not the full Unicode simple folding of `strings.EqualFold`.
- Strings are byte sequences with one character per byte: there is no UTF-8 decoding.
- The `Response` getters `GetResponseStatusCode`, `GetResponseHeaders` and `GetResponseContent` only read a field. `Builder.RedirectGetter` and `Builder.HeaderSurvivesBody` state what they return after the builders.
- handler-base, scratch and testing-examples: they depend on external services or generated mocks and are not part of this model.
- Concurrency: the route table is read-only while serving.

## Findings

| source | as written | input that shows it | evidently intended | confidence | as-written member | corrected member |
|---|---|---|---|---|---|---|
| Router.go:130-137 | `mandatoryBits` counts the bracketed (optional) segments, and the pre-filter rejects URLs with fewer segments than that | pattern "/a/[:b]/[:c]" with URL "/a" gives no match, although "/a/[:b]" matches "/a" | a URL needs at least as many segments as the pattern has non-optional segments | medium, not executed | `Matcher.AsWrittenOptionalExtensionFails` | `Matcher.IntendedOptionalExtension` |
| Router.go:123-125 | the root is cut off the URL by length without being compared, and a shorter URL makes the slice panic | root "/prefix": URL "/abcdef/here" matches pattern "/here", and URL "/here" panics | a URL that does not start with the root matches nothing | high, not executed | `Matcher.AsWrittenRootUnchecked` | `Matcher.IntendedRootChecked` |
