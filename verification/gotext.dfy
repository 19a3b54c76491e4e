/** The pieces of Go's `strings` and `strconv` packages that the router relies on:
    Split and Trim with a one-byte separator, Contains, ASCII EqualFold, and the
    decimal conversions Itoa and Atoi for the 64-bit `int` type. */
module GoText {
  import opened Base

  const MinInt64: int := -0x8000_0000_0000_0000
  const MaxInt64: int := 0x7FFF_FFFF_FFFF_FFFF

  /** Go's `int` on a 64-bit platform. */
  type Int64 = i: int | MinInt64 <= i <= MaxInt64

  // ---------------------------------------------------------------------------
  // strings.Split and its inverse strings.Join, for a one-byte separator

  /** Joins the parts with `sep` between consecutive parts. */
  function Join(parts: seq<string>, sep: char): string
  {
    if |parts| == 0 then ""
    else if |parts| == 1 then parts[0]
    else parts[0] + [sep] + Join(parts[1..], sep)
  }

  /** strings.Split(s, string(sep)): the maximal pieces between separators. Splitting
      the empty string yields one empty piece. */
  function Split(s: string, sep: char): (parts: seq<string>)
    ensures |parts| >= 1
    ensures forall i | 0 <= i < |parts| :: sep !in parts[i]
    ensures Join(parts, sep) == s
    decreases |s|
  {
    if |s| == 0 then [""]
    else
      var rest := Split(s[1..], sep);
      if s[0] == sep then
        assert ([""] + rest)[1..] == rest;
        [""] + rest
      else
        var parts := [[s[0]] + rest[0]] + rest[1..];
        assert parts[1..] == rest[1..];
        assert |rest| > 1 ==> Join(rest, sep) == rest[0] + [sep] + Join(rest[1..], sep);
        parts
  }

  /** The first piece of a split is the longest separator-free prefix. */
  lemma {:induction false} SplitFirst(s: string, sep: char)
    ensures var p := Split(s, sep)[0];
      |p| <= |s| && s[..|p|] == p && (|p| == |s| || s[|p|] == sep)
    decreases |s|
  {
    if |s| > 0 && s[0] != sep {
      SplitFirst(s[1..], sep);
    }
  }

  /** Splitting a join of separator-free parts gives the parts back. */
  lemma {:induction false} SplitJoin(parts: seq<string>, sep: char)
    requires |parts| >= 1
    requires forall i | 0 <= i < |parts| :: sep !in parts[i]
    ensures Split(Join(parts, sep), sep) == parts
    decreases |parts|, |parts[0]|
  {
    var p0 := parts[0];
    if |p0| == 0 {
      if |parts| > 1 {
        var s := Join(parts, sep);
        assert s == [sep] + Join(parts[1..], sep);
        assert s[1..] == Join(parts[1..], sep);
        SplitJoin(parts[1..], sep);
        assert [""] + parts[1..] == parts;
      }
    } else {
      var s := Join(parts, sep);
      var tail := [p0[1..]] + parts[1..];
      assert tail[1..] == parts[1..];
      assert p0[0] != sep by { assert p0[0] in p0; }
      if |parts| == 1 {
        assert s == p0;
      } else {
        assert s == p0 + [sep] + Join(parts[1..], sep);
      }
      assert s[1..] == Join(tail, sep);
      assert forall i | 0 <= i < |tail| :: sep !in tail[i] by {
        forall i | 0 <= i < |tail| ensures sep !in tail[i] {
          if i == 0 {
            assert forall c | c in p0[1..] :: c in p0;
          } else {
            assert tail[i] == parts[i];
          }
        }
      }
      SplitJoin(tail, sep);
      assert s[0] == p0[0];
      assert [p0[0]] + p0[1..] == p0;
      assert [[p0[0]] + tail[0]] + tail[1..] == parts;
    }
  }

  // ---------------------------------------------------------------------------
  // strings.Trim with a one-byte cutset

  /** The number of leading copies of `c` in `s`. */
  function LeadingRun(s: string, c: char): (n: nat)
    ensures n <= |s|
    ensures forall k | 0 <= k < n :: s[k] == c
    ensures n == |s| || s[n] != c
  {
    if |s| == 0 || s[0] != c then 0 else 1 + LeadingRun(s[1..], c)
  }

  /** The number of trailing copies of `c` in `s`. */
  function TrailingRun(s: string, c: char): (n: nat)
    ensures n <= |s|
    ensures forall k | |s| - n <= k < |s| :: s[k] == c
    ensures n == |s| || s[|s| - n - 1] != c
  {
    if |s| == 0 || s[|s| - 1] != c then 0 else 1 + TrailingRun(s[..|s| - 1], c)
  }

  /** strings.Trim(s, string(c)): `s` with every leading and trailing `c` removed. */
  function Trim(s: string, c: char): (r: string)
    ensures |r| <= |s|
    ensures |r| == 0 || (r[0] != c && r[|r| - 1] != c)
    ensures |r| == 0 <==> forall k | 0 <= k < |s| :: s[k] == c
    ensures var i := LeadingRun(s, c);
      && i + |r| <= |s|
      && s[i..i + |r|] == r
      && (forall k | i + |r| <= k < |s| :: s[k] == c)
  {
    var lead := LeadingRun(s, c);
    var t := s[lead..];
    TrimRuns(s, c, lead, t);
    t[..|t| - TrailingRun(t, c)]
  }

  /** The facts behind Trim's contract, for the middle part `t` after the leading run. */
  lemma TrimRuns(s: string, c: char, lead: nat, t: string)
    requires lead == LeadingRun(s, c) && t == s[lead..]
    ensures var r := t[..|t| - TrailingRun(t, c)];
      && (|r| == 0 || (r[0] != c && r[|r| - 1] != c))
      && (|r| == 0 <==> forall k | 0 <= k < |s| :: s[k] == c)
      && lead + |r| <= |s|
      && s[lead..lead + |r|] == r
      && (forall k | lead + |r| <= k < |s| :: s[k] == c)
  {
    var n := TrailingRun(t, c);
    var r := t[..|t| - n];
    assert s[lead..lead + |r|] == r;
    forall k | lead + |r| <= k < |s|
      ensures s[k] == c
    {
      assert s[k] == t[k - lead];
    }
    if |r| != 0 {
      assert r[0] == s[lead];
      assert r[|r| - 1] == t[|t| - n - 1];
    }
  }

  // ---------------------------------------------------------------------------
  // strings.Contains for the short needles the matcher uses

  /** strings.Contains(s, string([a, b])). */
  predicate ContainsPair(s: string, a: char, b: char)
  {
    exists i | 0 <= i < |s| - 1 :: s[i] == a && s[i + 1] == b
  }

  // ---------------------------------------------------------------------------
  // strings.EqualFold, restricted to ASCII letters

  function ToLower(c: char): char
  {
    if 'A' <= c <= 'Z' then (c as int + 32) as char else c
  }

  /** `s` with every ASCII capital letter lowered. */
  function Lower(s: string): (l: string)
    ensures |l| == |s|
  {
    seq(|s|, i requires 0 <= i < |s| => ToLower(s[i]))
  }

  /** Equality up to ASCII case: the two strings lower to the same string. */
  predicate EqualFold(a: string, b: string)
    ensures EqualFold(a, b) <==> Lower(a) == Lower(b)
  {
    LowerAgrees(a, b);
    |a| == |b| && forall i | 0 <= i < |a| :: ToLower(a[i]) == ToLower(b[i])
  }

  lemma LowerAgrees(a: string, b: string)
    ensures (|a| == |b| && forall i | 0 <= i < |a| :: ToLower(a[i]) == ToLower(b[i])) <==> Lower(a) == Lower(b)
  {
    if Lower(a) == Lower(b) {
      forall i | 0 <= i < |a|
        ensures ToLower(a[i]) == ToLower(b[i])
      {
        assert Lower(a)[i] == Lower(b)[i];
      }
    }
    if |a| == |b| && forall i | 0 <= i < |a| :: ToLower(a[i]) == ToLower(b[i]) {
      assert forall i | 0 <= i < |a| :: Lower(a)[i] == Lower(b)[i];
    }
  }

  // ---------------------------------------------------------------------------
  // strconv.Itoa and strconv.Atoi

  predicate IsDigit(c: char)
  {
    '0' <= c <= '9'
  }

  predicate AllDigits(s: string)
  {
    forall i | 0 <= i < |s| :: IsDigit(s[i])
  }

  function DigitChar(d: nat): (c: char)
    requires d < 10
    ensures IsDigit(c)
  {
    ('0' as int + d) as char
  }

  /** The value of a string of decimal digits, most significant first. */
  function DigitsValue(s: string): nat
    requires AllDigits(s)
  {
    if |s| == 0 then 0
    else DigitsValue(s[..|s| - 1]) * 10 + (s[|s| - 1] as int - '0' as int)
  }

  /** The decimal digits of `n`, without leading zeros. */
  function NatDigits(n: nat): (s: string)
    ensures |s| > 0 && AllDigits(s)
    ensures s[0] != '0' || s == "0"
    ensures DigitsValue(s) == n
    decreases n
  {
    if n < 10 then [DigitChar(n)]
    else
      var p := NatDigits(n / 10);
      var s := p + [DigitChar(n % 10)];
      assert s[..|s| - 1] == p;
      s
  }

  /** strconv.Itoa: decimal text with a leading '-' for negative numbers. */
  function Itoa(i: int): (s: string)
    ensures |s| > 0
    ensures s[0] == '-' <==> i < 0
    ensures i >= 0 ==> AllDigits(s)
    ensures i < 0 ==> AllDigits(s[1..])
    ensures i >= 0 ==> DigitsValue(s) == i && (s[0] != '0' || s == "0")
    ensures i < 0 ==> |s| > 1 && DigitsValue(s[1..]) == -i && s[1] != '0'
  {
    if i < 0 then "-" + NatDigits(-i) else NatDigits(i)
  }

  /** The digits of a numeral after its optional sign. */
  function Unsigned(s: string): string
    requires |s| > 0
  {
    if s[0] == '-' || s[0] == '+' then s[1..] else s
  }

  /** strconv.Atoi: an optional sign followed by at least one decimal digit, whose
      value fits Go's 64-bit `int`; anything else is a syntax or range error. */
  function Atoi(s: string): (r: Option<int>)
    ensures r.Some? <==>
      && |s| > 0 && |Unsigned(s)| > 0 && AllDigits(Unsigned(s))
      && MinInt64 <= (if s[0] == '-' then -(DigitsValue(Unsigned(s)) as int) else DigitsValue(Unsigned(s))) <= MaxInt64
    ensures r.Some? ==> r.value == (if s[0] == '-' then -(DigitsValue(Unsigned(s)) as int) else DigitsValue(Unsigned(s)))
    ensures r.Some? ==> MinInt64 <= r.value <= MaxInt64
    ensures r.Some? ==> |s| > 0 && (IsDigit(s[0]) || s[0] == '-' || s[0] == '+')
    ensures r.Some? ==> AllDigits(s[1..])
  {
    if |s| == 0 then None
    else
      var digits := if s[0] == '-' || s[0] == '+' then s[1..] else s;
      if |digits| == 0 || !AllDigits(digits) then None
      else
        var n: int := if s[0] == '-' then -(DigitsValue(digits) as int) else DigitsValue(digits);
        if MinInt64 <= n <= MaxInt64 then Some(n) else None
  }

  /** A plus sign and leading zeros are accepted; surrounding space is not. */
  lemma AtoiExamples()
    ensures Atoi("+404") == Some(404)
    ensures Atoi("0404") == Some(404)
    ensures Atoi(" 404") == None
    ensures Atoi("-") == None
  {
    assert Unsigned("+404") == "404";
    assert DigitsValue("4") == 4;
    assert DigitsValue("40") == 40 by { assert "40"[..1] == "4"; }
    assert DigitsValue("404") == 404 by { assert "404"[..2] == "40"; }
    assert DigitsValue("0") == 0;
    assert DigitsValue("04") == 4 by { assert "04"[..1] == "0"; }
    assert DigitsValue("040") == 40 by { assert "040"[..2] == "04"; }
    assert DigitsValue("0404") == 404 by { assert "0404"[..3] == "040"; }
    assert !IsDigit(" 404"[0]);
  }

  /** Itoa and Atoi are inverse on Go's `int`. */
  lemma ItoaAtoi(i: Int64)
    ensures Atoi(Itoa(i)) == Some(i)
  {
    var s := Itoa(i);
    var m: int := i;
    if m < 0 {
      assert s[1..] == NatDigits(-m);
    }
  }

  /** A digit string without a leading zero, or the single digit "0". */
  predicate CanonicalDigits(s: string)
  {
    |s| > 0 && AllDigits(s) && (s[0] != '0' || s == "0")
  }

  /** The text strconv.Itoa writes: canonical digits, after a '-' only when non-zero. */
  predicate CanonicalNumeral(s: string)
  {
    |s| > 0 &&
    if s[0] == '-' then CanonicalDigits(s[1..]) && s[1..] != "0" else CanonicalDigits(s)
  }

  /** A canonical digit string is the only one NatDigits writes for its value. */
  lemma {:induction false} CanonicalDigitsUnique(s: string)
    requires CanonicalDigits(s)
    ensures NatDigits(DigitsValue(s)) == s
    decreases |s|
  {
    if |s| == 1 {
      assert DigitsValue(s) == DigitsValue(s[..0]) * 10 + (s[0] as int - '0' as int);
    } else {
      var p := s[..|s| - 1];
      assert p[0] == s[0];
      assert AllDigits(p) by {
        assert forall k | 0 <= k < |p| :: p[k] == s[k];
      }
      CanonicalDigitsUnique(p);
      var v := DigitsValue(s);
      var d := s[|s| - 1] as int - '0' as int;
      assert v == DigitsValue(p) * 10 + d;
      assert DigitsValue(p) >= 1;
      assert v / 10 == DigitsValue(p) && v % 10 == d;
      assert NatDigits(v) == NatDigits(v / 10) + [DigitChar(v % 10)];
      assert s == p + [s[|s| - 1]];
    }
  }

  /** The reverse round trip: a canonical numeral in Go's `int` range is read by Atoi
      and written back by Itoa unchanged, so Itoa's text is the canonical one. */
  lemma AtoiItoa(s: string)
    requires CanonicalNumeral(s)
    requires Atoi(s).Some?
    ensures Itoa(Atoi(s).value) == s
  {
    if s[0] == '-' {
      CanonicalDigitsUnique(s[1..]);
      assert DigitsValue(s[1..]) != 0;
      assert s == "-" + s[1..];
    } else {
      CanonicalDigitsUnique(s);
    }
  }

  /** Itoa writes only canonical numerals. */
  lemma ItoaCanonical(i: int)
    ensures CanonicalNumeral(Itoa(i))
  {
    if i < 0 {
      var s := Itoa(i);
      assert s[1..] == NatDigits(-i);
    }
  }
}
