/** Content coercion of the response builder (`getStatusCode`, `getResponseBody`,
    `getContentAsByte`, identical in Request.go and call.go).

    The Go code takes `...interface{}` and switches on the reflected kind. The
    model closes that set into the variant `Arg`. Renderings produced by foreign
    library code (strconv.FormatFloat, json.Marshal, fmt's `%v` of values whose
    text the router does not compute) travel inside the variant as data. */
module Content {
  import opened Base
  import opened GoText

  /** A time.Time, taken in UTC with no sub-second part. */
  datatype DateTime = DateTime(year: nat, month: nat, day: nat, hour: nat, minute: nat, second: nat)

  /** One argument of Success/Error/Response. */
  datatype Arg =
    | Int(i: Int64)                              // Go `int`
    | Str(s: string)                             // Go `string`
    | Bool(b: bool)
    | ByteSlice(bytes: Bytes)                    // Go `[]byte`
    | Time(t: DateTime)                          // time.Time
    | Struct(json: Option<Bytes>, fields: string) // json.Marshal output (None on error); `%v` is "{" + fields + "}"
    | Float(formatted: string, verb: string)     // FormatFloat(f, 'f', -1, 64) and the `%v` text
    | OtherSlice(elems: string)                  // any other slice; fmt.Sprint gives "[" + elems + "]"
    | Nil                                        // an untyped nil
    | Other(verb: string)                        // every other kind; only its `%v` text matters

  // ---------------------------------------------------------------------------
  // time.Time.Format("2006-01-02 15:04:05")

  function Zeros(n: nat): (z: string)
    ensures |z| == n && forall i | 0 <= i < n :: z[i] == '0'
  {
    seq(n, _ => '0')
  }

  /** Decimal digits of `n`, zero-padded on the left to at least `width`. */
  function Pad(n: nat, width: nat): (s: string)
    ensures |s| >= width
    ensures width > 0 && n < Pow10(width) ==> |s| == width
    ensures AllDigits(s) && DigitsValue(s) == n
    ensures |s| > width ==> s[0] != '0' || s == "0"
  {
    var d := NatDigits(n);
    NatDigitsLength(n, width);
    var z := if |d| < width then Zeros(width - |d|) else "";
    LeadingZeros(z, d);
    z + d
  }

  function Pow10(k: nat): nat
  {
    if k == 0 then 1 else 10 * Pow10(k - 1)
  }

  lemma {:induction false} NatDigitsLength(n: nat, width: nat)
    ensures width > 0 && n < Pow10(width) ==> |NatDigits(n)| <= width
    decreases n
  {
    if n >= 10 && width > 0 && n < Pow10(width) {
      assert Pow10(width) == 10 * Pow10(width - 1);
      assert n / 10 < Pow10(width - 1);
      NatDigitsLength(n / 10, width - 1);
    }
  }

  lemma {:induction false} LeadingZeros(z: string, d: string)
    requires forall i | 0 <= i < |z| :: z[i] == '0'
    requires AllDigits(d)
    ensures AllDigits(z + d) && DigitsValue(z + d) == DigitsValue(d)
    decreases |d|, |z|
  {
    if |d| == 0 {
      assert z + d == z;
      if |z| > 0 {
        LeadingZeros(z[..|z| - 1], "");
        assert z[..|z| - 1] + "" == z[..|z| - 1];
      }
    } else {
      var s := z + d;
      assert s[..|s| - 1] == z + d[..|d| - 1];
      LeadingZeros(z, d[..|d| - 1]);
    }
  }

  /** The time in the layout "2006-01-02 15:04:05". */
  function FormatTime(t: DateTime): string
  {
    Pad(t.year, 4) + "-" + Pad(t.month, 2) + "-" + Pad(t.day, 2) + " " +
    Pad(t.hour, 2) + ":" + Pad(t.minute, 2) + ":" + Pad(t.second, 2)
  }

  /** A time whose fields fit the layout's widths. */
  predicate InLayout(t: DateTime)
  {
    t.year < 10000 && t.month < 100 && t.day < 100 && t.hour < 100 && t.minute < 100 && t.second < 100
  }

  /** Reads the layout "2006-01-02 15:04:05" back. */
  function ParseTime(s: string): Option<DateTime>
  {
    if |s| == 19 && s[4] == '-' && s[7] == '-' && s[10] == ' ' && s[13] == ':' && s[16] == ':'
      && AllDigits(s[0..4]) && AllDigits(s[5..7]) && AllDigits(s[8..10])
      && AllDigits(s[11..13]) && AllDigits(s[14..16]) && AllDigits(s[17..19])
    then Some(DateTime(DigitsValue(s[0..4]), DigitsValue(s[5..7]), DigitsValue(s[8..10]),
                       DigitsValue(s[11..13]), DigitsValue(s[14..16]), DigitsValue(s[17..19])))
    else None
  }

  /** The formatted time is 19 bytes long and reads back as the same time. */
  lemma FormatTimeRoundTrip(t: DateTime)
    requires InLayout(t)
    ensures |FormatTime(t)| == 19
    ensures ParseTime(FormatTime(t)) == Some(t)
  {
    assert Pow10(2) == 100 && Pow10(4) == 10000;
    LayoutFields(Pad(t.year, 4), Pad(t.month, 2), Pad(t.day, 2),
      Pad(t.hour, 2), Pad(t.minute, 2), Pad(t.second, 2));
  }

  /** Where the six fields sit in the layout. */
  lemma LayoutFields(y: string, mo: string, d: string, h: string, mi: string, se: string)
    requires |y| == 4 && |mo| == 2 && |d| == 2 && |h| == 2 && |mi| == 2 && |se| == 2
    ensures var s := y + "-" + mo + "-" + d + " " + h + ":" + mi + ":" + se;
      && |s| == 19
      && s[4] == '-' && s[7] == '-' && s[10] == ' ' && s[13] == ':' && s[16] == ':'
      && s[0..4] == y && s[5..7] == mo && s[8..10] == d
      && s[11..13] == h && s[14..16] == mi && s[17..19] == se
  {
    var s := y + "-" + mo + "-" + d + " " + h + ":" + mi + ":" + se;
    assert s[0..4] == y;
    assert s[5..7] == mo;
    assert s[8..10] == d;
    assert s[11..13] == h;
    assert s[14..16] == mi;
    assert s[17..19] == se;
  }

  lemma FormatTimeReadsBack(t: DateTime)
    ensures InLayout(t) ==> ParseTime(FormatTime(t)) == Some(t)
  {
    if InLayout(t) {
      FormatTimeRoundTrip(t);
    }
  }

  // ---------------------------------------------------------------------------
  // fmt's `%v` text, which getStatusCode parses

  /** The decimal text of each byte of a []byte. */
  function ByteDecimals(b: Bytes): (ds: seq<string>)
    ensures |ds| == |b|
  {
    seq(|b|, i requires 0 <= i < |b| => Itoa(b[i] as int))
  }

  /** The bytes of a []byte written as decimal numbers separated by spaces. */
  function ByteList(b: Bytes): string
  {
    Join(ByteDecimals(b), ' ')
  }

  /** The space-separated list splits back into the bytes' decimal texts. */
  lemma ByteListSplits(b: Bytes)
    ensures |b| > 0 ==> Split(ByteList(b), ' ') == ByteDecimals(b)
  {
    if |b| == 0 { return; }
    var ds := ByteDecimals(b);
    forall i | 0 <= i < |ds|
      ensures ' ' !in ds[i]
    {
      var n := b[i] as int;
      assert ds[i] == Itoa(n);
      assert AllDigits(ds[i]);
    }
    SplitJoin(ds, ' ');
  }

  /** fmt.Sprintf("%v", a). An int prints as the text Atoi reads back, a string
      as itself, a []byte as its bytes' decimals in brackets, a time in its
      String form (here for UTC), a struct in braces, nil as "<nil>", and a
      float or another kind as the `%v` text it carries. */
  function VerbText(a: Arg): (t: string)
    ensures a.Int? ==> Atoi(t) == Some(a.i)
    ensures a.Str? ==> t == a.s
    ensures a.Bool? ==> t == (if a.b then "true" else "false")
    ensures a.ByteSlice? ==> |t| >= 2 && t[0] == '[' && t[|t| - 1] == ']'
    ensures a.ByteSlice? && |a.bytes| > 0 ==> Split(t[1..|t| - 1], ' ') == ByteDecimals(a.bytes)
    ensures a.Time? ==> |t| >= |FormatTime(a.t)| && t[..|FormatTime(a.t)|] == FormatTime(a.t) && t[|FormatTime(a.t)|..] == " +0000 UTC"
    ensures a.Struct? ==> |t| >= 2 && t[0] == '{' && t[|t| - 1] == '}'
    ensures a.Float? ==> t == a.verb
    ensures a.Nil? ==> t == "<nil>"
  {
    match a
    case Int(i) => ItoaAtoi(i); Itoa(i)
    case Str(s) => s
    case Bool(b) => if b then "true" else "false"
    case ByteSlice(b) =>
      var t := "[" + ByteList(b) + "]";
      assert t[1..|t| - 1] == ByteList(b);
      ByteListSplits(b);
      t
    case Time(t) => FormatTime(t) + " +0000 UTC"
    case Struct(_, fields) => "{" + fields + "}"
    case Float(_, verb) => verb
    case OtherSlice(elems) => "[" + elems + "]"
    case Nil => "<nil>"
    case Other(verb) => verb
  }

  // ---------------------------------------------------------------------------
  // getContentAsByte

  /** The bytes one argument contributes to a response body. */
  function ContentAsBytes(a: Arg): (b: Bytes)
    ensures a.Str? ==> b == a.s
    ensures a.ByteSlice? ==> b == a.bytes
    ensures a.Bool? ==> b == (if a.b then "true" else "false")
    ensures a.Struct? ==> b == (if a.json.Some? then a.json.value else "")
    ensures a.Nil? || a.Other? ==> b == ""
    ensures a.Int? ==> b == Itoa(a.i)
    ensures a.Time? ==> b == FormatTime(a.t)
    ensures a.OtherSlice? ==> b == "[" + a.elems + "]"
    ensures a.Float? ==> b == a.formatted
  {
    match a
    case Struct(json, _) => if json.Some? then json.value else ""
    case Time(t) => FormatTime(t)
    case Bool(b) => if b then "true" else "false"
    case ByteSlice(b) => b
    case OtherSlice(elems) => "[" + elems + "]"
    case Str(s) => s
    case Int(i) => Itoa(i)
    case Float(formatted, _) => formatted
    case Nil => ""
    case Other(_) => ""
  }

  /** Integers and times are encoded so that they read back: Atoi recovers the
      integer and the layout parser recovers the time. */
  lemma ContentReadsBack(a: Arg)
    ensures a.Int? ==> Atoi(ContentAsBytes(a)) == Some(a.i)
    ensures a.Time? && InLayout(a.t) ==> ParseTime(ContentAsBytes(a)) == Some(a.t)
  {
    match a
    case Int(i) => ItoaAtoi(i);
    case Time(t) => FormatTimeReadsBack(t);
    case _ =>
  }

  // ---------------------------------------------------------------------------
  // getStatusCode

  /** The status code for a builder call with default `defaultCode`: the integer
      spelled by the first argument's `%v` text when that text parses and lies in
      [100, 999]; otherwise the default. */
  function StatusCode(defaultCode: int, args: seq<Arg>): (code: int)
    ensures |args| == 0 ==> code == defaultCode
    ensures code == defaultCode || (|args| > 0 && Atoi(VerbText(args[0])) == Some(code))
    ensures code != defaultCode ==> 100 <= code <= 999
    ensures |args| > 0 && Atoi(VerbText(args[0])).Some? && 100 <= Atoi(VerbText(args[0])).value <= 999
      ==> code == Atoi(VerbText(args[0])).value
  {
    if |args| < 1 then defaultCode
    else
      match Atoi(VerbText(args[0]))
      case None => defaultCode
      case Some(userCode) => if 100 <= userCode <= 999 then userCode else defaultCode
  }

  // ---------------------------------------------------------------------------
  // getResponseBody

  /** The argument getResponseBody skips: a leading Go `int` in [100, 999]. */
  predicate IsStatusArg(a: Arg)
  {
    a.Int? && 100 <= a.i <= 999
  }

  /** The images of the arguments under `f`, concatenated in order with no
      separator. */
  function ConcatMap(f: Arg -> Bytes, args: seq<Arg>): Bytes
  {
    if |args| == 0 then "" else ConcatMap(f, args[..|args| - 1]) + f(args[|args| - 1])
  }

  lemma {:induction false} ConcatMapAppend(f: Arg -> Bytes, a: seq<Arg>, b: seq<Arg>)
    ensures ConcatMap(f, a + b) == ConcatMap(f, a) + ConcatMap(f, b)
    decreases |b|
  {
    if |b| == 0 {
      assert a + b == a;
    } else {
      var ab := a + b;
      assert ab[..|ab| - 1] == a + b[..|b| - 1];
      ConcatMapAppend(f, a, b[..|b| - 1]);
    }
  }

  /** The encodings of the arguments, concatenated in order with no separator. */
  function Encodings(args: seq<Arg>): Bytes
  {
    ConcatMap(ContentAsBytes, args)
  }

  /** The response body: every argument's encoding, except a leading status
      argument. */
  function ResponseBody(args: seq<Arg>): Bytes
  {
    if |args| > 0 && IsStatusArg(args[0]) then Encodings(args[1..]) else Encodings(args)
  }

  lemma EncodingsAppend(a: seq<Arg>, b: seq<Arg>)
    ensures Encodings(a + b) == Encodings(a) + Encodings(b)
  {
    ConcatMapAppend(ContentAsBytes, a, b);
  }

  lemma EncodingsCons(a: Arg, rest: seq<Arg>)
    ensures Encodings([a] + rest) == ContentAsBytes(a) + Encodings(rest)
  {
    ConcatMapCons(ContentAsBytes, a, rest);
  }

  lemma ConcatMapCons(f: Arg -> Bytes, a: Arg, rest: seq<Arg>)
    ensures ConcatMap(f, [a] + rest) == f(a) + ConcatMap(f, rest)
  {
    ConcatMapAppend(f, [a], rest);
    assert [a][..0] == [];
    assert ConcatMap(f, [a]) == "" + f(a);
  }

  /** getResponseBody as the Go loop computes it: walk the arguments, skip a
      leading status argument, append each encoding. */
  method GetResponseBody(args: seq<Arg>) returns (output: Bytes)
    ensures |args| > 0 && IsStatusArg(args[0]) ==> output == Encodings(args[1..])
    ensures !(|args| > 0 && IsStatusArg(args[0])) ==> output == Encodings(args)
  {
    if |args| == 0 {
      return "";
    }
    var start := if IsStatusArg(args[0]) then 1 else 0;
    output := "";
    var pos := start;
    while pos < |args|
      invariant start <= pos <= |args|
      invariant output == Encodings(args[start..pos])
    {
      assert args[start..pos + 1][..pos - start] == args[start..pos];
      output := output + ContentAsBytes(args[pos]);
      pos := pos + 1;
    }
    assert args[start..|args|] == args[start..];
    assert args[0..] == args;
  }

  // ---------------------------------------------------------------------------
  // How the status code and the body read the first argument

  /** The `%v` text of these kinds never parses as an integer, so they never set
      the status. A type with its own String method is outside `Arg`. */
  lemma NeverAStatus(a: Arg)
    requires a.Bool? || a.ByteSlice? || a.Time? || a.Struct? || a.OtherSlice? || a.Nil?
    ensures Atoi(VerbText(a)) == None
  {
    var v := VerbText(a);
    if a.Time? {
      var y := Pad(a.t.year, 4);
      assert v[|y|] == '-';
      assert v[1..][|y| - 1] == '-';
    } else if a.Bool? {
      assert v[0] == 't' || v[0] == 'f';
    }
  }

  /** A leading `int` in [100, 999] is the status and is left out of the body;
      any other leading `int` keeps the default status and its digits open the
      body. */
  lemma LeadingInt(defaultCode: int, i: Int64, rest: seq<Arg>)
    ensures 100 <= i <= 999 ==>
      StatusCode(defaultCode, [Int(i)] + rest) == i && ResponseBody([Int(i)] + rest) == Encodings(rest)
    ensures !(100 <= i <= 999) ==>
      StatusCode(defaultCode, [Int(i)] + rest) == defaultCode
      && ResponseBody([Int(i)] + rest) == Itoa(i) + Encodings(rest)
  {
    ItoaAtoi(i);
    assert ([Int(i)] + rest)[1..] == rest;
    EncodingsCons(Int(i), rest);
  }

  /** A leading string that spells a code in [100, 999] sets the status, yet
      stays in the body: the status rule and the body rule read the first
      argument differently. */
  lemma LeadingString(defaultCode: int, s: string, rest: seq<Arg>)
    ensures StatusCode(defaultCode, [Str(s)] + rest) ==
      (if Atoi(s).Some? && 100 <= Atoi(s).value <= 999 then Atoi(s).value else defaultCode)
    ensures ResponseBody([Str(s)] + rest) == s + Encodings(rest)
  {
    EncodingsCons(Str(s), rest);
  }

  /** A float behaves like a string: its `%v` text (the %g form) decides the
      status, and its FormatFloat text stays in the body, so 404.0 sets 404. */
  lemma LeadingFloat(defaultCode: int, formatted: string, verb: string, rest: seq<Arg>)
    ensures StatusCode(defaultCode, [Float(formatted, verb)] + rest) ==
      (if Atoi(verb).Some? && 100 <= Atoi(verb).value <= 999 then Atoi(verb).value else defaultCode)
    ensures ResponseBody([Float(formatted, verb)] + rest) == formatted + Encodings(rest)
  {
    EncodingsCons(Float(formatted, verb), rest);
  }

  /** For the kinds in NeverAStatus the status is the default and the argument's
      encoding opens the body. */
  lemma LeadingNonStatus(defaultCode: int, a: Arg, rest: seq<Arg>)
    requires a.Bool? || a.ByteSlice? || a.Time? || a.Struct? || a.OtherSlice? || a.Nil?
    ensures StatusCode(defaultCode, [a] + rest) == defaultCode
    ensures ResponseBody([a] + rest) == ContentAsBytes(a) + Encodings(rest)
  {
    NeverAStatus(a);
    EncodingsCons(a, rest);
  }
}
