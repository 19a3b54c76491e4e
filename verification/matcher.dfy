/** The path-pattern matcher of the router (`Router.isAMatch`).

    A pattern and a URL path are trimmed of '/' and split on '/' into segments. A
    pattern segment is a literal, a named parameter `:name`, or an optional named
    parameter `[:name]`. The matcher pre-filters on segment counts and then walks
    the pattern position by position. Go's runtime panics (slicing out of range)
    are an explicit outcome here. */
module Matcher {
  import opened Base
  import opened GoText

  /** The result of one match attempt: `(false, nil)`, `(true, params)`, or a
      runtime panic. */
  datatype Outcome = NoMatch | Matched(params: StringMap) | Panic

  /** The segments of a pattern or URL path: Trim then Split on '/'. */
  function Segments(s: string): (bits: seq<string>)
    ensures |bits| >= 1
    ensures forall i | 0 <= i < |bits| :: '/' !in bits[i]
    ensures Join(bits, '/') == Trim(s, '/')
  {
    Split(Trim(s, '/'), '/')
  }

  /** The root path "/" is one empty segment, as is the empty path. */
  lemma SegmentsOfRoot()
    ensures Segments("/") == [""]
    ensures Segments("") == [""]
  {
    assert Trim("/", '/') == "";
    SegmentsOf("/", [""]);
    SegmentsOf("", [""]);
  }

  // ---------------------------------------------------------------------------
  // Classification of pattern segments, as the Go code tests them

  /** The pre-filter's test: the segment contains both '[' and ']'. */
  predicate Bracketed(bit: string)
  {
    '[' in bit && ']' in bit
  }

  /** The walk's test, when the URL has run out: the segment contains "[:". */
  predicate OptionalMarker(bit: string)
  {
    ContainsPair(bit, '[', ':')
  }

  /** `:name`: longer than one byte and starting with ':'. */
  predicate IsParam(bit: string)
  {
    |bit| > 1 && bit[0] == ':'
  }

  /** `[:name]`: longer than one byte and starting with "[:". */
  predicate IsOptionalParam(bit: string)
  {
    |bit| > 1 && bit[..2] == "[:"
  }

  /** A segment that binds a parameter without panicking. The bare "[:" passes
      the optional-parameter test but slicing its name as bit[2:len(bit)-1]
      panics. */
  predicate Named(bit: string)
  {
    IsParam(bit) || (IsOptionalParam(bit) && |bit| >= 3)
  }

  /** The parameter name a named segment binds: after the ':' for `:name`; for
      `[:name]` the first two bytes and the last byte are removed, whatever that
      last byte is. */
  function Name(bit: string): (name: string)
    requires Named(bit)
    ensures IsParam(bit) ==> bit == ":" + name
    ensures !IsParam(bit) ==> bit == "[:" + name + [bit[|bit| - 1]]
  {
    if IsParam(bit) then bit[1..] else bit[2..|bit| - 1]
  }

  /** The positions of the bracketed segments. */
  function BracketedPositions(bits: seq<string>): set<nat>
  {
    set i: nat | i < |bits| && Bracketed(bits[i])
  }

  /** The number of bracketed segments: what the Go code calls `mandatoryBits`. */
  function BracketedCount(bits: seq<string>): (n: nat)
    ensures n <= |bits|
  {
    if |bits| == 0 then 0
    else BracketedCount(bits[..|bits| - 1]) + (if Bracketed(bits[|bits| - 1]) then 1 else 0)
  }

  /** BracketedCount counts exactly the positions of bracketed segments. */
  lemma {:induction false} BracketedCountPositions(bits: seq<string>)
    ensures BracketedCount(bits) == |BracketedPositions(bits)|
  {
    if |bits| > 0 {
      var k := |bits| - 1;
      var front := bits[..k];
      BracketedCountPositions(front);
      var before, last := BracketedPositions(front), if Bracketed(bits[k]) then {k} else {};
      forall i: nat | i in BracketedPositions(bits) ensures i in before + last {
        if i < k { assert front[i] == bits[i]; }
      }
      forall i: nat | i in before + last ensures i in BracketedPositions(bits) {
        if i < k { assert front[i] == bits[i]; }
      }
      assert BracketedPositions(bits) == before + last;
      assert k !in before;
      assert |before + last| == |before| + |last|;
    }
  }

  /** The Go loop that computes `mandatoryBits`, front to back. */
  method MandatoryBits(pathBits: seq<string>) returns (count: nat)
    ensures count == BracketedCount(pathBits)
    ensures count == |BracketedPositions(pathBits)|
  {
    count := 0;
    var pos := 0;
    while pos < |pathBits|
      invariant pos <= |pathBits|
      invariant count == BracketedCount(pathBits[..pos])
    {
      var bit := pathBits[pos];
      assert pathBits[..pos + 1][..pos] == pathBits[..pos];
      if '[' in bit && ']' in bit {
        count := count + 1;
      }
      pos := pos + 1;
    }
    assert pathBits[..pos] == pathBits;
    BracketedCountPositions(pathBits);
  }

  // ---------------------------------------------------------------------------
  // The walk

  /** The loop over the pattern segments from position `pos`, with the parameters
      bound so far in `args`. */
  function Walk(pathBits: seq<string>, urlBits: seq<string>, pos: nat, args: StringMap): Outcome
    requires pos <= |pathBits|
    decreases |pathBits| - pos
  {
    if pos == |pathBits| then Matched(args)
    else
      var bit := pathBits[pos];
      if |urlBits| < pos + 1 then
        if OptionalMarker(bit) then Matched(args) else NoMatch
      else if IsParam(bit) then
        Walk(pathBits, urlBits, pos + 1, args[bit[1..] := urlBits[pos]])
      else if IsOptionalParam(bit) then
        if |bit| < 3 then Panic
        else Walk(pathBits, urlBits, pos + 1, args[bit[2..|bit| - 1] := urlBits[pos]])
      else if urlBits[pos] != bit then NoMatch
      else Walk(pathBits, urlBits, pos + 1, args)
  }

  /** Pre-filter on segment counts, then the walk from an empty parameter map. */
  function MatchBits(pathBits: seq<string>, urlBits: seq<string>): (r: Outcome)
    ensures |urlBits| > |pathBits| ==> r == NoMatch
    ensures |urlBits| < BracketedCount(pathBits) ==> r == NoMatch
    ensures r == Declared(pathBits, urlBits, BracketedCount(pathBits))
  {
    if |urlBits| < BracketedCount(pathBits) || |urlBits| > |pathBits| then NoMatch
    else
      WalkFrom(pathBits, urlBits, 0);
      Walk(pathBits, urlBits, 0, map[])
  }

  /** With a root configured, the first |root| bytes of the URL are cut off
      unchecked; a URL shorter than the root makes the slice panic (None). */
  function StripRoot(root: string, url: string): (r: Option<string>)
    ensures |root| == 0 ==> r == Some(url)
    ensures r.None? <==> |url| < |root|
    ensures r.Some? ==> |r.value| == |url| - |root| && r.value == url[|root|..]
  {
    if |root| > 0 then
      if |url| < |root| then None else Some(url[|root|..])
    else Some(url)
  }

  /** Router.isAMatch: does `url`, under the router's `root`, match the pattern
      `path`? */
  function IsAMatch(root: string, path: string, url: string): (r: Outcome)
    ensures |url| < |root| ==> r == Panic
    ensures |url| >= |root| ==> r == MatchBits(Segments(path), Segments(url[|root|..]))
    ensures |url| >= |root| && |Segments(url[|root|..])| > |Segments(path)| ==> r == NoMatch
    ensures |url| >= |root| && |Segments(url[|root|..])| < BracketedCount(Segments(path)) ==> r == NoMatch
  {
    match StripRoot(root, url)
    case None => Panic
    case Some(rest) => MatchBits(Segments(path), Segments(rest))
  }

  // ---------------------------------------------------------------------------
  // A declarative reading of the walk

  /** A pattern segment accepts a URL segment: it binds a name, or it is a
      literal equal to the URL segment (case-sensitive). */
  predicate Fits(bit: string, u: string)
  {
    Named(bit) || (!IsParam(bit) && !IsOptionalParam(bit) && bit == u)
  }

  predicate FitsBefore(pathBits: seq<string>, urlBits: seq<string>, n: nat)
    requires n <= |pathBits| && n <= |urlBits|
  {
    forall i | 0 <= i < n :: Fits(pathBits[i], urlBits[i])
  }

  /** Every pattern segment that has a URL segment at its position accepts it. */
  predicate AllFit(pathBits: seq<string>, urlBits: seq<string>)
    requires |urlBits| <= |pathBits|
  {
    FitsBefore(pathBits, urlBits, |urlBits|)
  }

  /** Where the URL runs out before the pattern does, the first unmatched pattern
      segment contains "[:". */
  predicate TailOk(pathBits: seq<string>, urlBits: seq<string>)
  {
    |urlBits| >= |pathBits| || OptionalMarker(pathBits[|urlBits|])
  }

  /** The parameter map after binding one segment. */
  function Bind(args: StringMap, bit: string, u: string): StringMap
  {
    if Named(bit) then args[Name(bit) := u] else args
  }

  /** The parameters bound by the first `n` positions, left to right, a later
      binding of the same name overwriting an earlier one. */
  function BindAll(pathBits: seq<string>, urlBits: seq<string>, n: nat): StringMap
    requires n <= |pathBits| && n <= |urlBits|
  {
    if n == 0 then map[]
    else Bind(BindAll(pathBits, urlBits, n - 1), pathBits[n - 1], urlBits[n - 1])
  }

  /** The declarative reading of the matcher, for a URL needing at least `least`
      segments: a URL with fewer segments than `least` or more than the pattern
      does not match; otherwise a bare "[:" segment reached while every segment
      before it fits panics; otherwise the URL matches exactly when every
      pattern segment with a URL segment at its position accepts it and the
      tail rule holds, with the bindings made left to right. */
  function Declared(pathBits: seq<string>, urlBits: seq<string>, least: nat): Outcome
  {
    if |urlBits| < least || |urlBits| > |pathBits| then NoMatch
    else if exists i | 0 <= i < |urlBits| :: pathBits[i] == "[:" && FitsBefore(pathBits, urlBits, i) then Panic
    else if AllFit(pathBits, urlBits) && TailOk(pathBits, urlBits) then
      Matched(BindAll(pathBits, urlBits, |urlBits|))
    else NoMatch
  }

  /** The walk from `pos`, started with the bindings of the positions before it,
      agrees with the declarative reading. */
  lemma {:induction false} WalkFrom(pathBits: seq<string>, urlBits: seq<string>, pos: nat)
    requires |urlBits| <= |pathBits|
    requires pos <= |urlBits|
    ensures var r := Walk(pathBits, urlBits, pos, BindAll(pathBits, urlBits, pos));
      && (r.Matched? <==>
            (forall i | pos <= i < |urlBits| :: Fits(pathBits[i], urlBits[i])) && TailOk(pathBits, urlBits))
      && (r.Matched? ==> r.params == BindAll(pathBits, urlBits, |urlBits|))
      && (r == Panic <==>
            exists i | pos <= i < |urlBits| :: pathBits[i] == "[:" &&
              forall j | pos <= j < i :: Fits(pathBits[j], urlBits[j]))
    decreases |urlBits| - pos
  {
    var args := BindAll(pathBits, urlBits, pos);
    if pos == |urlBits| {
      // nothing left to check but the tail
    } else {
      var bit := pathBits[pos];
      var u := urlBits[pos];
      assert BindAll(pathBits, urlBits, pos + 1) == Bind(args, bit, u);
      WalkFrom(pathBits, urlBits, pos + 1);
      if bit == "[:" {
        assert !Fits(bit, u);
        assert Walk(pathBits, urlBits, pos, args) == Panic;
      } else if Fits(bit, u) {
        assert Walk(pathBits, urlBits, pos, args)
            == Walk(pathBits, urlBits, pos + 1, Bind(args, bit, u));
        var r := Walk(pathBits, urlBits, pos + 1, Bind(args, bit, u));
        if r == Panic {
          var i :| pos + 1 <= i < |urlBits| && pathBits[i] == "[:" &&
            forall j | pos + 1 <= j < i :: Fits(pathBits[j], urlBits[j]);
          assert forall j | pos <= j < i :: Fits(pathBits[j], urlBits[j]);
        }
        if exists i | pos <= i < |urlBits| :: pathBits[i] == "[:" &&
            forall j | pos <= j < i :: Fits(pathBits[j], urlBits[j]) {
          var i :| pos <= i < |urlBits| && pathBits[i] == "[:" &&
            forall j | pos <= j < i :: Fits(pathBits[j], urlBits[j]);
          assert i != pos;
        }
      } else {
        assert Walk(pathBits, urlBits, pos, args) == NoMatch;
      }
    }
  }

  /** The parameters bound by the first `n` positions are exactly the names of the
      named segments among them. */
  lemma {:induction false} BindAllDomain(pathBits: seq<string>, urlBits: seq<string>, n: nat, k: string)
    requires n <= |pathBits| && n <= |urlBits|
    ensures k in BindAll(pathBits, urlBits, n) <==>
      exists i | 0 <= i < n :: Named(pathBits[i]) && Name(pathBits[i]) == k
  {
    if n > 0 {
      BindAllDomain(pathBits, urlBits, n - 1, k);
      if k in BindAll(pathBits, urlBits, n) && k !in BindAll(pathBits, urlBits, n - 1) {
        assert Named(pathBits[n - 1]) && Name(pathBits[n - 1]) == k;
      }
    }
  }

  /** A named segment with no later segment of the same name binds its name to the
      URL segment at its position. */
  lemma {:induction false} BindAllValue(pathBits: seq<string>, urlBits: seq<string>, n: nat, i: nat)
    requires i < n <= |pathBits| && n <= |urlBits|
    requires Named(pathBits[i])
    requires forall j | i < j < n :: !(Named(pathBits[j]) && Name(pathBits[j]) == Name(pathBits[i]))
    ensures Name(pathBits[i]) in BindAll(pathBits, urlBits, n)
    ensures BindAll(pathBits, urlBits, n)[Name(pathBits[i])] == urlBits[i]
  {
    if i < n - 1 {
      BindAllValue(pathBits, urlBits, n - 1, i);
    }
  }

  /** On success the parameter map holds exactly the names of the named segments
      that had a URL segment, each bound to the URL segment at its last
      occurrence; `:name` binds `name` and `[:name]` binds `name` without the
      brackets. Pattern segments past the end of the URL bind nothing. */
  lemma MatchedParams(pathBits: seq<string>, urlBits: seq<string>, k: string, i: nat)
    requires MatchBits(pathBits, urlBits).Matched?
    ensures var p := MatchBits(pathBits, urlBits).params;
      k in p <==> exists j | 0 <= j < |urlBits| :: Named(pathBits[j]) && Name(pathBits[j]) == k
    ensures var p := MatchBits(pathBits, urlBits).params;
      && i < |urlBits| && Named(pathBits[i])
      && (forall j | i < j < |urlBits| :: !(Named(pathBits[j]) && Name(pathBits[j]) == Name(pathBits[i])))
      ==> Name(pathBits[i]) in p && p[Name(pathBits[i])] == urlBits[i]
  {
    BindAllDomain(pathBits, urlBits, |urlBits|, k);
    if i < |urlBits| && Named(pathBits[i])
      && (forall j | i < j < |urlBits| :: !(Named(pathBits[j]) && Name(pathBits[j]) == Name(pathBits[i])))
    {
      BindAllValue(pathBits, urlBits, |urlBits|, i);
    }
  }

  /** A literal pattern segment that differs from the URL segment at its position
      defeats the match; unless a bare "[:" panics earlier, the result is
      `(false, nil)`. */
  lemma LiteralMismatch(pathBits: seq<string>, urlBits: seq<string>, i: nat)
    requires i < |urlBits| <= |pathBits|
    requires !IsParam(pathBits[i]) && !IsOptionalParam(pathBits[i])
    requires urlBits[i] != pathBits[i]
    ensures !MatchBits(pathBits, urlBits).Matched?
    ensures (forall j | 0 <= j < i :: pathBits[j] != "[:") ==> MatchBits(pathBits, urlBits) == NoMatch
  {
  }

  /** A URL that runs out at a segment containing "[:" matches when everything
      before it fits; the remaining pattern segments are neither checked nor
      bound. Running out at any other segment fails. */
  lemma RunsOut(pathBits: seq<string>, urlBits: seq<string>)
    requires BracketedCount(pathBits) <= |urlBits| < |pathBits|
    requires AllFit(pathBits, urlBits)
    ensures OptionalMarker(pathBits[|urlBits|]) ==> MatchBits(pathBits, urlBits).Matched?
    ensures !OptionalMarker(pathBits[|urlBits|]) ==> MatchBits(pathBits, urlBits) == NoMatch
  {
    forall i | 0 <= i < |urlBits|
      ensures pathBits[i] != "[:"
    {
      assert Fits(pathBits[i], urlBits[i]);
    }
    assert MatchBits(pathBits, urlBits) == Declared(pathBits, urlBits, BracketedCount(pathBits));
  }

  /** Splitting the trimmed text `s` gives `parts`. */
  lemma SegmentsOf(s: string, parts: seq<string>)
    requires |parts| >= 1
    requires forall i | 0 <= i < |parts| :: '/' !in parts[i]
    requires Trim(s, '/') == Join(parts, '/')
    ensures Segments(s) == parts
  {
    SplitJoin(parts, '/');
  }

  // ---------------------------------------------------------------------------
  // The matcher as evidently intended

  /** The pre-filter with the count the name `mandatoryBits` promises: segments
      that are not bracketed. */
  function MatchBitsIntended(pathBits: seq<string>, urlBits: seq<string>): (r: Outcome)
    ensures |urlBits| > |pathBits| ==> r == NoMatch
    ensures |urlBits| < |pathBits| - BracketedCount(pathBits) ==> r == NoMatch
    ensures r == Declared(pathBits, urlBits, |pathBits| - BracketedCount(pathBits))
  {
    if |urlBits| < |pathBits| - BracketedCount(pathBits) || |urlBits| > |pathBits| then NoMatch
    else
      WalkFrom(pathBits, urlBits, 0);
      Walk(pathBits, urlBits, 0, map[])
  }

  /** The matcher with both corrections: a root that is not a prefix of the URL
      means no match, and the pre-filter counts non-bracketed segments. */
  function IsAMatchIntended(root: string, path: string, url: string): (r: Outcome)
    ensures !(root <= url) ==> r == NoMatch
    ensures root <= url ==> r == MatchBitsIntended(Segments(path), Segments(url[|root|..]))
  {
    if !(root <= url) then NoMatch
    else MatchBitsIntended(Segments(path), Segments(url[|root|..]))
  }

  /** Appending a segment containing "[:" to a pattern does not change the walk
      over a URL no longer than the original pattern. */
  lemma {:induction false} WalkExtendOptional(
    pathBits: seq<string>, opt: string, urlBits: seq<string>, pos: nat, args: StringMap)
    requires OptionalMarker(opt)
    requires pos <= |urlBits| <= |pathBits|
    ensures Walk(pathBits + [opt], urlBits, pos, args) == Walk(pathBits, urlBits, pos, args)
    decreases |urlBits| - pos
  {
    var ext := pathBits + [opt];
    if pos < |urlBits| {
      var bit := pathBits[pos];
      assert ext[pos] == bit;
      if IsParam(bit) {
        WalkExtendOptional(pathBits, opt, urlBits, pos + 1, args[bit[1..] := urlBits[pos]]);
      } else if IsOptionalParam(bit) {
        if |bit| >= 3 {
          WalkExtendOptional(pathBits, opt, urlBits, pos + 1, args[bit[2..|bit| - 1] := urlBits[pos]]);
        }
      } else if urlBits[pos] == bit {
        WalkExtendOptional(pathBits, opt, urlBits, pos + 1, args);
      }
    } else if pos < |pathBits| {
      assert ext[pos] == pathBits[pos];
    } else {
      assert ext[pos] == opt;
    }
  }

  lemma BracketedCountAppend(bits: seq<string>, bit: string)
    ensures BracketedCount(bits + [bit]) == BracketedCount(bits) + (if Bracketed(bit) then 1 else 0)
  {
    assert (bits + [bit])[..|bits|] == bits;
  }

  /** Corrected matcher: a URL that matches a pattern still matches, with the same
      parameters, once an optional `[:name]` segment is appended to the pattern;
      the same holds for no-match and panic. */
  lemma IntendedOptionalExtension(pathBits: seq<string>, opt: string, urlBits: seq<string>)
    requires Bracketed(opt) && OptionalMarker(opt)
    requires |urlBits| <= |pathBits|
    ensures MatchBitsIntended(pathBits + [opt], urlBits) == MatchBitsIntended(pathBits, urlBits)
  {
    BracketedCountAppend(pathBits, opt);
    WalkExtendOptional(pathBits, opt, urlBits, 0, map[]);
  }

  /** Corrected matcher: a URL outside the root never matches and never panics. */
  lemma IntendedRootChecked(root: string, path: string, url: string)
    requires !(root <= url)
    ensures IsAMatchIntended(root, path, url) == NoMatch
  {
  }

  /** Outside the inputs of the two corrections the matchers agree: a root that
      is a prefix of the URL, and a URL that passes both segment-count rules. */
  lemma MatchersAgree(pathBits: seq<string>, urlBits: seq<string>)
    requires |urlBits| >= BracketedCount(pathBits) && |urlBits| >= |pathBits| - BracketedCount(pathBits)
    ensures MatchBits(pathBits, urlBits) == MatchBitsIntended(pathBits, urlBits)
  {
  }

  lemma IsAMatchAgrees(root: string, path: string, url: string)
    requires root <= url
    requires var p, u := Segments(path), Segments(url[|root|..]);
      |u| >= BracketedCount(p) && |u| >= |p| - BracketedCount(p)
    ensures IsAMatch(root, path, url) == IsAMatchIntended(root, path, url)
  {
    MatchersAgree(Segments(path), Segments(url[|root|..]));
  }

  /** Trimming the single leading '/' of "/" + t. */
  lemma TrimLeadingSlash(t: string)
    requires |t| > 0 && t[0] != '/' && t[|t| - 1] != '/'
    ensures Trim("/" + t, '/') == t
  {
    var s := "/" + t;
    assert s[1..] == t;
    assert LeadingRun(s, '/') == 1;
  }

  lemma SegmentsOfA()
    ensures Segments("/a") == ["a"]
  {
    TrimLeadingSlash("a");
    SegmentsOf("/a", ["a"]);
  }

  lemma SegmentsOfAB()
    ensures Segments("/a/[:b]") == ["a", "[:b]"]
  {
    TrimLeadingSlash("a/[:b]");
    SegmentsOf("/a/[:b]", ["a", "[:b]"]);
  }

  lemma SegmentsOfABC()
    ensures Segments("/a/[:b]/[:c]") == ["a", "[:b]", "[:c]"]
  {
    var t := "a/[:b]/[:c]";
    assert Join(["[:c]"], '/') == "[:c]";
    assert Join(["[:b]", "[:c]"], '/') == "[:b]/[:c]" by {
      assert ["[:b]", "[:c]"][1..] == ["[:c]"];
    }
    assert Join(["a", "[:b]", "[:c]"], '/') == t by {
      assert ["a", "[:b]", "[:c]"][1..] == ["[:b]", "[:c]"];
    }
    TrimLeadingSlash(t);
    SegmentsOf("/a/[:b]/[:c]", ["a", "[:b]", "[:c]"]);
  }

  lemma SegmentsOfHere()
    ensures Segments("/here") == ["here"]
  {
    TrimLeadingSlash("here");
    SegmentsOf("/here", ["here"]);
  }

  lemma MatchBitsAB()
    ensures MatchBits(["a", "[:b]"], ["a"]) == Matched(map[])
    ensures BracketedCount(["a", "[:b]"]) == 1
  {
    BracketedCountAppend(["a"], "[:b]");
    assert ["a"] + ["[:b]"] == ["a", "[:b]"];
    assert BracketedCount(["a"]) == 0 by { assert ["a"][..0] == []; }
    assert OptionalMarker("[:b]") by { assert "[:b]"[0] == '[' && "[:b]"[1] == ':'; }
    assert Fits("a", "a");
    assert BindAll(["a", "[:b]"], ["a"], 1) == map[];
  }

  lemma MatchBitsABC()
    ensures MatchBits(["a", "[:b]", "[:c]"], ["a"]) == NoMatch
    ensures MatchBitsIntended(["a", "[:b]", "[:c]"], ["a"]) == Matched(map[])
  {
    MatchBitsAB();
    assert OptionalMarker("[:c]") by { assert "[:c]"[0] == '[' && "[:c]"[1] == ':'; }
    IntendedOptionalExtension(["a", "[:b]"], "[:c]", ["a"]);
    BracketedCountAppend(["a", "[:b]"], "[:c]");
    assert ["a", "[:b]"] + ["[:c]"] == ["a", "[:b]", "[:c]"];
  }

  /** As written, the same extension can lose a match: "/a" matches "/a/[:b]" but
      not "/a/[:b]/[:c]", because the pre-filter demands at least as many URL
      segments as bracketed pattern segments. */
  lemma AsWrittenOptionalExtensionFails()
    ensures IsAMatch("", "/a/[:b]", "/a") == Matched(map[])
    ensures IsAMatch("", "/a/[:b]/[:c]", "/a") == NoMatch
    ensures IsAMatchIntended("", "/a/[:b]/[:c]", "/a") == Matched(map[])
  {
    SegmentsOfA();
    SegmentsOfAB();
    SegmentsOfABC();
    assert "/a"[0..] == "/a";
    MatchBitsAB();
    MatchBitsABC();
  }

  /** As written, the root is cut off by length without being compared: under the
      root "/prefix" the URL "/abcdef/here" matches the pattern "/here". */
  lemma AsWrittenRootUnchecked()
    ensures IsAMatch("/prefix", "/here", "/abcdef/here") == Matched(map[])
    ensures IsAMatch("/prefix", "/here", "/here") == Panic
    ensures IsAMatchIntended("/prefix", "/here", "/abcdef/here") == NoMatch
  {
    assert "/abcdef/here"[7..] == "/here";
    SegmentsOfHere();
    assert MatchBits(["here"], ["here"]) == Matched(map[]) by {
      assert BracketedCount(["here"]) == 0 by { assert ["here"][..0] == []; }
      assert Fits("here", "here");
      assert BindAll(["here"], ["here"], 1) == map[];
    }
    assert !("/prefix" <= "/abcdef/here") by { assert "/abcdef/here"[1] != "/prefix"[1]; }
  }

  // ---------------------------------------------------------------------------
  // Patterns and URLs of the routing tests

  /** A path of three non-empty slash-free segments splits into them. */
  lemma SegmentsOfThree(a: string, b: string, c: string)
    requires a != "" && b != "" && c != ""
    requires '/' !in a && '/' !in b && '/' !in c
    ensures Segments("/" + a + "/" + b + "/" + c) == [a, b, c]
  {
    var t := a + "/" + b + "/" + c;
    assert Join([c], '/') == c;
    assert Join([b, c], '/') == b + "/" + c by { assert [b, c][1..] == [c]; }
    assert Join([a, b, c], '/') == t by { assert [a, b, c][1..] == [b, c]; }
    assert t[0] == a[0] && t[|t| - 1] == c[|c| - 1];
    assert a[0] in a && c[|c| - 1] in c;
    assert "/" + a + "/" + b + "/" + c == "/" + t;
    TrimLeadingSlash(t);
    SegmentsOf("/" + t, [a, b, c]);
  }

  /** Two named segments bind their names to the URL segments in their places:
      "/one/:two/:three" against "/one/blah/works". */
  lemma NamedSegmentsExample()
    ensures IsAMatch("", "/one/:two/:three", "/one/blah/works") == Matched(map["two" := "blah", "three" := "works"])
  {
    NamedPatternSegments();
    NamedUrlSegments();
    assert "/one/blah/works"[0..] == "/one/blah/works";
    NamedBitsExample();
  }

  lemma NamedPatternSegments()
    ensures Segments("/one/:two/:three") == ["one", ":two", ":three"]
  {
    assert "/" + "one" + "/" + ":two" + "/" + ":three" == "/one/:two/:three";
    assert '/' !in ":two" && '/' !in ":three" && '/' !in "one";
    SegmentsOfThree("one", ":two", ":three");
  }

  lemma NamedUrlSegments()
    ensures Segments("/one/blah/works") == ["one", "blah", "works"]
  {
    assert "/" + "one" + "/" + "blah" + "/" + "works" == "/one/blah/works";
    assert '/' !in "blah" && '/' !in "works" && '/' !in "one";
    SegmentsOfThree("one", "blah", "works");
  }

  lemma NamedBitsExample()
    ensures MatchBits(["one", ":two", ":three"], ["one", "blah", "works"]) == Matched(map["two" := "blah", "three" := "works"])
  {
    var p := ["one", ":two", ":three"];
    var u := ["one", "blah", "works"];
    BracketedCountAppend([], "one");
    BracketedCountAppend(["one"], ":two");
    BracketedCountAppend(["one", ":two"], ":three");
    assert [] + ["one"] == ["one"] && ["one"] + [":two"] == ["one", ":two"] && ["one", ":two"] + [":three"] == p;
    assert IsParam(":two") && ":two"[1..] == "two";
    assert IsParam(":three") && ":three"[1..] == "three";
    assert !IsParam("one") && !IsOptionalParam("one");
    assert Walk(p, u, 3, map["two" := "blah", "three" := "works"]) == Matched(map["two" := "blah", "three" := "works"]);
    assert Walk(p, u, 2, map["two" := "blah"]) == Walk(p, u, 3, map["two" := "blah", "three" := "works"]);
    assert Walk(p, u, 1, map[]) == Walk(p, u, 2, map["two" := "blah"]);
    assert Walk(p, u, 0, map[]) == Walk(p, u, 1, map[]);
  }

  /** The pattern of the optional-segment test has two bracketed segments. */
  lemma OptionalSegmentsCount()
    ensures BracketedCount(["route", "with", "[:optional]", "[:parameters]"]) == 2
  {
    assert Bracketed("[:parameters]") by { assert "[:parameters]"[0] == '['; assert "[:parameters]"[12] == ']'; }
    assert Bracketed("[:optional]") by { assert "[:optional]"[0] == '['; assert "[:optional]"[10] == ']'; }
    assert !Bracketed("with") && !Bracketed("route");
    BracketedCountAppend([], "route");
    BracketedCountAppend(["route"], "with");
    BracketedCountAppend(["route", "with"], "[:optional]");
    BracketedCountAppend(["route", "with", "[:optional]"], "[:parameters]");
    assert [] + ["route"] == ["route"];
    assert ["route"] + ["with"] == ["route", "with"];
    assert ["route", "with"] + ["[:optional]"] == ["route", "with", "[:optional]"];
    assert ["route", "with", "[:optional]"] + ["[:parameters]"] == ["route", "with", "[:optional]", "[:parameters]"];
  }

  /** Optional segments past the end of the URL are neither checked nor bound;
      those the URL reaches bind their names ("/route/with/[:optional]/[:parameters]"). */
  lemma OptionalSegmentsExample()
    ensures var p := ["route", "with", "[:optional]", "[:parameters]"];
      && MatchBits(p, ["route", "with"]) == Matched(map[])
      && MatchBits(p, ["route", "with", "first"]) == Matched(map["optional" := "first"])
      && MatchBits(p, ["route", "with", "first", "second"]) ==
           Matched(map["optional" := "first", "parameters" := "second"])
  {
    OptionalSegmentsCount();
    OptionalWalk2();
    OptionalWalk3();
    OptionalWalk4();
  }

  lemma OptionalPrefix(u: seq<string>)
    requires 2 <= |u| && u[0] == "route" && u[1] == "with"
    ensures Walk(["route", "with", "[:optional]", "[:parameters]"], u, 0, map[])
         == Walk(["route", "with", "[:optional]", "[:parameters]"], u, 2, map[])
  {
    var p := ["route", "with", "[:optional]", "[:parameters]"];
    assert !IsParam("route") && !IsOptionalParam("route");
    assert !IsParam("with") && !IsOptionalParam("with");
    assert Walk(p, u, 0, map[]) == Walk(p, u, 1, map[]);
  }

  lemma OptionalWalk2()
    ensures Walk(["route", "with", "[:optional]", "[:parameters]"], ["route", "with"], 0, map[]) == Matched(map[])
  {
    OptionalPrefix(["route", "with"]);
    assert OptionalMarker("[:optional]") by { assert "[:optional]"[0] == '[' && "[:optional]"[1] == ':'; }
  }

  lemma OptionalWalk3()
    ensures Walk(["route", "with", "[:optional]", "[:parameters]"], ["route", "with", "first"], 0, map[])
         == Matched(map["optional" := "first"])
  {
    var p := ["route", "with", "[:optional]", "[:parameters]"];
    var u := ["route", "with", "first"];
    OptionalPrefix(u);
    assert !IsParam("[:optional]") && IsOptionalParam("[:optional]") && "[:optional]"[2..10] == "optional";
    assert OptionalMarker("[:parameters]") by { assert "[:parameters]"[0] == '[' && "[:parameters]"[1] == ':'; }
    assert Walk(p, u, 2, map[]) == Walk(p, u, 3, map["optional" := "first"]);
  }

  lemma OptionalWalk4()
    ensures Walk(["route", "with", "[:optional]", "[:parameters]"], ["route", "with", "first", "second"], 0, map[])
         == Matched(map["optional" := "first", "parameters" := "second"])
  {
    var p := ["route", "with", "[:optional]", "[:parameters]"];
    var u := ["route", "with", "first", "second"];
    OptionalPrefix(u);
    assert !IsParam("[:optional]") && IsOptionalParam("[:optional]") && "[:optional]"[2..10] == "optional";
    assert !IsParam("[:parameters]") && IsOptionalParam("[:parameters]") && "[:parameters]"[2..12] == "parameters";
    assert Walk(p, u, 3, map["optional" := "first"]) == Walk(p, u, 4, map["optional" := "first", "parameters" := "second"]);
    assert Walk(p, u, 2, map[]) == Walk(p, u, 3, map["optional" := "first"]);
  }

  /** A path of two non-empty slash-free segments splits into them. */
  lemma SegmentsOfTwo(a: string, b: string)
    requires a != "" && b != ""
    requires '/' !in a && '/' !in b
    ensures Segments("/" + a + "/" + b) == [a, b]
  {
    var t := a + "/" + b;
    assert Join([b], '/') == b;
    assert Join([a, b], '/') == t by { assert [a, b][1..] == [b]; }
    assert t[0] == a[0] && t[|t| - 1] == b[|b| - 1];
    assert a[0] in a && b[|b| - 1] in b;
    assert "/" + a + "/" + b == "/" + t;
    TrimLeadingSlash(t);
    SegmentsOf("/" + t, [a, b]);
  }

  /** A literal segment is compared exactly: "/undefined/route" does not match
      "/defined/route". */
  lemma LiteralExample()
    ensures IsAMatch("", "/defined/route", "/undefined/route") == NoMatch
    ensures IsAMatchIntended("", "/defined/route", "/undefined/route") == NoMatch
  {
    LiteralSegments();
    assert "/undefined/route"[0..] == "/undefined/route";
    LiteralBits();
  }

  lemma LiteralSegments()
    ensures Segments("/defined/route") == ["defined", "route"]
    ensures Segments("/undefined/route") == ["undefined", "route"]
  {
    assert "/" + "defined" + "/" + "route" == "/defined/route";
    assert "/" + "undefined" + "/" + "route" == "/undefined/route";
    assert '/' !in "defined" && '/' !in "undefined" && '/' !in "route";
    SegmentsOfTwo("defined", "route");
    SegmentsOfTwo("undefined", "route");
  }

  lemma LiteralBits()
    ensures MatchBits(["defined", "route"], ["undefined", "route"]) == NoMatch
    ensures MatchBitsIntended(["defined", "route"], ["undefined", "route"]) == NoMatch
  {
    var p := ["defined", "route"];
    var u := ["undefined", "route"];
    BracketedCountAppend([], "defined");
    BracketedCountAppend(["defined"], "route");
    assert [] + ["defined"] == ["defined"] && ["defined"] + ["route"] == p;
    assert !IsParam("defined") && !IsOptionalParam("defined");
    assert "undefined" != "defined" by { assert |"undefined"| != |"defined"|; }
    assert Walk(p, u, 0, map[]) == NoMatch;
  }

  /** A `:name` segment binds the URL segment in its place: "/url/param/:one"
      against "/url/param/working". */
  lemma ParamExample()
    ensures IsAMatch("", "/url/param/:one", "/url/param/working") == Matched(map["one" := "working"])
    ensures IsAMatchIntended("", "/url/param/:one", "/url/param/working") == Matched(map["one" := "working"])
  {
    ParamPatternSegments();
    ParamUrlSegments();
    assert "/url/param/working"[0..] == "/url/param/working";
    ParamBits();
  }

  lemma ParamBits()
    ensures MatchBits(["url", "param", ":one"], ["url", "param", "working"]) == Matched(map["one" := "working"])
    ensures MatchBitsIntended(["url", "param", ":one"], ["url", "param", "working"]) == Matched(map["one" := "working"])
  {
    var p := ["url", "param", ":one"];
    var u := ["url", "param", "working"];
    BracketedCountAppend([], "url");
    BracketedCountAppend(["url"], "param");
    BracketedCountAppend(["url", "param"], ":one");
    assert [] + ["url"] == ["url"] && ["url"] + ["param"] == ["url", "param"] && ["url", "param"] + [":one"] == p;
    assert !IsParam("url") && !IsOptionalParam("url");
    assert !IsParam("param") && !IsOptionalParam("param");
    assert IsParam(":one") && ":one"[1..] == "one";
    assert Walk(p, u, 3, map["one" := "working"]) == Matched(map["one" := "working"]);
    assert Walk(p, u, 2, map[]) == Walk(p, u, 3, map["one" := "working"]);
    assert Walk(p, u, 1, map[]) == Walk(p, u, 2, map[]);
    assert Walk(p, u, 0, map[]) == Walk(p, u, 1, map[]);
  }

  lemma ParamPatternSegments()
    ensures Segments("/url/param/:one") == ["url", "param", ":one"]
  {
    assert "/" + "url" + "/" + "param" + "/" + ":one" == "/url/param/:one";
    assert '/' !in "url" && '/' !in "param" && '/' !in ":one";
    SegmentsOfThree("url", "param", ":one");
  }

  lemma ParamUrlSegments()
    ensures Segments("/url/param/working") == ["url", "param", "working"]
  {
    assert "/" + "url" + "/" + "param" + "/" + "working" == "/url/param/working";
    assert '/' !in "url" && '/' !in "param" && '/' !in "working";
    SegmentsOfThree("url", "param", "working");
  }
}
