/** The `call` record (call.go): a request with a second response record of its
    own. The builders declared on `call` write that second record; the methods
    promoted from the embedded request (GetResponse, SetResponseHeader) still
    act on the request's record. */
module Calls {
  import opened Base
  import opened GoText
  import opened Content
  import Responses
  import Builder
  import Requests

  datatype Call = Call(request: Requests.Request, response: Responses.Response)

  function SetHeader(c: Call, key: string, value: string): (c': Call)
    ensures c'.response == Builder.SetHeader(c.response, key, value)
    ensures c'.request == c.request
  {
    c.(response := Builder.SetHeader(c.response, key, value))
  }

  function Redirect(c: Call, destination: string): (c': Call)
    ensures c'.response == Builder.Redirect(c.response, destination)
    ensures c'.request == c.request
  {
    c.(response := Builder.Redirect(c.response, destination))
  }

  function PermanentRedirect(c: Call, destination: string): (c': Call)
    ensures c'.response == Builder.PermanentRedirect(c.response, destination)
    ensures c'.request == c.request
  {
    c.(response := Builder.PermanentRedirect(c.response, destination))
  }

  function Success(c: Call, args: seq<Arg>): (c': Call)
    ensures c'.response == Builder.Success(c.response, args)
    ensures c'.request == c.request
  {
    c.(response := Builder.Success(c.response, args))
  }

  function Error(c: Call, args: seq<Arg>): (c': Call)
    ensures c'.response == Builder.Error(c.response, args)
    ensures c'.request == c.request
  {
    c.(response := Builder.Error(c.response, args))
  }

  function Respond(c: Call, args: seq<Arg>): (c': Call)
    ensures c'.response == Builder.Respond(c.response, args)
    ensures c'.request == c.request
  {
    c.(response := Builder.Respond(c.response, args))
  }

  /** GetResponse is promoted from the embedded request. */
  function GetResponse(c: Call): Responses.Response
  {
    Requests.GetResponse(c.request)
  }

  /** SetResponseHeader is promoted from the embedded request. */
  function SetResponseHeader(c: Call, key: string, value: string): (c': Call)
    ensures c'.request == Requests.SetResponseHeader(c.request, key, value)
    ensures c'.response == c.response
  {
    c.(request := Requests.SetResponseHeader(c.request, key, value))
  }

  /** The call's builders and the promoted request methods address two different
      response records: neither kind of write is visible through the other. */
  lemma TwoResponseRecords(c: Call, args: seq<Arg>, key: string, value: string, destination: string)
    ensures GetResponse(Success(c, args)) == GetResponse(c)
    ensures GetResponse(Redirect(c, destination)) == GetResponse(c)
    ensures GetResponse(SetHeader(c, key, value)) == GetResponse(c)
    ensures SetResponseHeader(c, key, value).response == c.response
  {
  }

  /** The two copies of the builder compute the same response from the same
      starting record. */
  lemma CopiesAgree(c: Call, args: seq<Arg>, key: string, value: string)
    ensures Success(c, args).response == Requests.Success(c.request.(response := c.response), args).response
    ensures Error(c, args).response == Requests.Error(c.request.(response := c.response), args).response
    ensures Respond(c, args).response == Requests.Respond(c.request.(response := c.response), args).response
    ensures SetHeader(c, key, value).response ==
      Requests.SetResponseHeader(c.request.(response := c.response), key, value).response
  {
  }

  // ---------------------------------------------------------------------------
  // The builder on fresh calls with concrete arguments

  /** A call whose own response is still the zero value. */
  predicate Fresh(c: Call)
  {
    c.response == Responses.Empty
  }

  lemma NoArguments(c: Call)
    requires Fresh(c)
    ensures Success(c, []).response.StatusCode == 200 && Success(c, []).response.Content == ""
    ensures Error(c, []).response.StatusCode == 400 && Error(c, []).response.Content == ""
  {
    assert Encodings([]) == "";
  }


  lemma Itoa50000()
    ensures Itoa(50000) == "50000"
  {
    assert NatDigits(5) == "5";
    assert NatDigits(50) == NatDigits(5) + "0";
    assert NatDigits(500) == NatDigits(50) + "0";
    assert NatDigits(5000) == NatDigits(500) + "0";
    assert NatDigits(50000) == NatDigits(5000) + "0";
  }

  /** A leading code in [100, 999] is the status and stays out of the body. */
  lemma LeadingCode(c: Call, s: string)
    requires Fresh(c)
    ensures Success(c, [Int(404), Str(s)]).response.StatusCode == 404
    ensures Success(c, [Int(404), Str(s)]).response.Content == s
    ensures Error(c, [Int(200), Str(s)]).response.StatusCode == 200
    ensures Error(c, [Int(200), Str(s)]).response.Content == s
  {
    LeadingInt(200, 404, [Str(s)]);
    LeadingInt(400, 200, [Str(s)]);
    EncodingsCons(Str(s), []);
    assert [Str(s)] + [] == [Str(s)];
    assert [Int(404)] + [Str(s)] == [Int(404), Str(s)];
    assert [Int(200)] + [Str(s)] == [Int(200), Str(s)];
  }

  /** An out-of-range leading integer keeps the default status and its digits
      open the body. */
  lemma OutOfRangeCode(c: Call, s: string)
    requires Fresh(c)
    ensures Success(c, [Int(50000), Str(s)]).response.StatusCode == 200
    ensures Success(c, [Int(50000), Str(s)]).response.Content == "50000" + s
  {
    LeadingInt(200, 50000, [Str(s)]);
    Itoa50000();
    EncodingsCons(Str(s), []);
    assert [Str(s)] + [] == [Str(s)];
    assert [Int(50000)] + [Str(s)] == [Int(50000), Str(s)];
  }

  /** A plain string or a boolean keeps the default status and is the body. */
  lemma PlainValues(c: Call, s: string)
    requires Fresh(c)
    requires |s| == 0 || !(IsDigit(s[0]) || s[0] == '-' || s[0] == '+')
    ensures Error(c, [Str(s)]).response == Responses.Response(400, map[], s, Responses.RedirectInfo(false, ""))
    ensures Respond(c, [Str(s)]).response == Responses.Response(200, map[], s, Responses.RedirectInfo(false, ""))
    ensures Success(c, [Bool(true)]).response.Content == "true"
    ensures Success(c, [Bool(true)]).response.StatusCode == 200
  {
    EncodingsCons(Str(s), []);
    assert [Str(s)] + [] == [Str(s)];
    LeadingNonStatus(200, Bool(true), []);
    assert [Bool(true)] + [] == [Bool(true)];
  }

  /** A struct is encoded as its JSON text, a byte slice passes through and any
      other slice uses its printed form, none of them setting the status; the
      float 1.2 gives its shortest decimal form with the default status. */
  lemma OtherKinds(c: Call, json: Bytes, fields: string, b: Bytes, elems: string)
    requires Fresh(c)
    ensures Success(c, [Struct(Some(json), fields)]).response.Content == json
    ensures Success(c, [Struct(Some(json), fields)]).response.StatusCode == 200
    ensures Success(c, [ByteSlice(b)]).response.Content == b
    ensures Success(c, [OtherSlice(elems)]).response.Content == "[" + elems + "]"
    ensures Success(c, [OtherSlice(elems)]).response.StatusCode == 200
    ensures Success(c, [Float("1.2", "1.2")]).response == Responses.Response(200, map[], "1.2", Responses.RedirectInfo(false, ""))
  {
    LeadingNonStatus(200, Struct(Some(json), fields), []);
    assert [Struct(Some(json), fields)] + [] == [Struct(Some(json), fields)];
    LeadingNonStatus(200, ByteSlice(b), []);
    assert [ByteSlice(b)] + [] == [ByteSlice(b)];
    LeadingNonStatus(200, OtherSlice(elems), []);
    assert [OtherSlice(elems)] + [] == [OtherSlice(elems)];
    EncodingsCons(Float("1.2", "1.2"), []);
    assert [Float("1.2", "1.2")] + [] == [Float("1.2", "1.2")];
    assert !IsDigit("1.2"[1]);
  }

  /** A float whose `%v` text is a code in [100, 999] sets the status and, unlike
      an int, still writes its text into the body. */
  lemma FloatCode(c: Call, s: string)
    requires Fresh(c)
    ensures Success(c, [Float("404", "404"), Str(s)]).response.StatusCode == 404
    ensures Success(c, [Float("404", "404"), Str(s)]).response.Content == "404" + s
  {
    LeadingFloat(200, "404", "404", [Str(s)]);
    EncodingsCons(Str(s), []);
    assert [Str(s)] + [] == [Str(s)];
    assert [Float("404", "404")] + [Str(s)] == [Float("404", "404"), Str(s)];
    assert Atoi("404") == Some(404) by {
      assert DigitsValue("4") == 4;
      assert DigitsValue("40") == 40 by { assert "40"[..1] == "4"; }
      assert DigitsValue("404") == 404 by { assert "404"[..2] == "40"; }
    }
  }

  /** A time is written in the layout "2006-01-02 15:04:05". */
  lemma TimeValue(c: Call)
    requires Fresh(c)
    ensures Success(c, [Time(DateTime(2022, 1, 1, 12, 0, 0))]).response.Content == "2022-01-01 12:00:00"
    ensures Success(c, [Time(DateTime(2022, 1, 1, 12, 0, 0))]).response.StatusCode == 200
  {
    var a := Time(DateTime(2022, 1, 1, 12, 0, 0));
    LeadingNonStatus(200, a, []);
    assert [a] + [] == [a];
    PadExamples();
  }

  lemma PadExamples()
    ensures FormatTime(DateTime(2022, 1, 1, 12, 0, 0)) == "2022-01-01 12:00:00"
  {
    Pad2022();
    PadTwoDigits();
  }

  lemma Pad2022()
    ensures Pad(2022, 4) == "2022"
  {
    assert NatDigits(2) == "2";
    assert NatDigits(20) == NatDigits(2) + "0";
    assert NatDigits(202) == NatDigits(20) + "2";
    assert NatDigits(2022) == NatDigits(202) + "2";
  }

  lemma PadTwoDigits()
    ensures Pad(1, 2) == "01" && Pad(12, 2) == "12" && Pad(0, 2) == "00"
  {
    assert Zeros(1) == "0";
    assert NatDigits(12) == NatDigits(1) + "2";
  }
}
