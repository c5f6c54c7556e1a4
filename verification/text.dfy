/** String operations the components rely on: decimal rendering of
    integers and of cents with two decimals (`toFixed(2)` on a whole number
    of cents), `Array.join(", ")`, `String.trim` and ASCII lower-casing.
    Each rendering comes with the parser that inverts it. */
module Text {
  import opened Base

  predicate IsDigit(c: char) {
    '0' <= c <= '9'
  }

  predicate AllDigits(s: string) {
    forall i :: 0 <= i < |s| ==> IsDigit(s[i])
  }

  function DigitChar(d: nat): (c: char)
    requires d < 10
    ensures IsDigit(c)
    ensures DigitValue(c) == d
  {
    "0123456789"[d]
  }

  function DigitValue(c: char): (d: nat)
    requires IsDigit(c)
    ensures d < 10
  {
    (c as int - '0' as int) as nat
  }

  /** Decimal rendering of a natural number, without leading zeros. */
  function NatToString(n: nat): (s: string)
    ensures |s| > 0 && AllDigits(s)
    ensures |s| > 1 ==> s[0] != '0'
    decreases n
  {
    if n < 10 then [DigitChar(n)]
    else
      var r := NatToString(n / 10) + [DigitChar(n % 10)];
      assert r[0] == NatToString(n / 10)[0];
      r
  }

  /** The value of a string of decimal digits (the empty string reads 0). */
  function DigitsValue(s: string): nat
    requires AllDigits(s)
  {
    if |s| == 0 then 0 else 10 * DigitsValue(s[..|s| - 1]) + DigitValue(s[|s| - 1])
  }

  /** Reading back a rendered natural number gives the number. */
  lemma {:induction false} NatToStringRoundTrip(n: nat)
    ensures DigitsValue(NatToString(n)) == n
    decreases n
  {
    var s := NatToString(n);
    if n >= 10 {
      assert s[..|s| - 1] == NatToString(n / 10);
      NatToStringRoundTrip(n / 10);
    }
  }

  /** JavaScript's `String(n)` on an integer: a minus sign for negatives. */
  function IntToString(i: int): (s: string)
    ensures |s| > 0
    ensures i >= 0 ==> AllDigits(s)
    ensures i < 0 ==> s[0] == '-' && AllDigits(s[1..])
  {
    if i < 0 then "-" + NatToString(-i) else NatToString(i)
  }

  /** Parse an optionally signed decimal integer. */
  function ParseInt(s: string): Option<int> {
    if |s| > 0 && s[0] == '-' then
      if |s| > 1 && AllDigits(s[1..]) then Some(-(DigitsValue(s[1..]) as int)) else None
    else if |s| > 0 && AllDigits(s) then Some(DigitsValue(s) as int)
    else None
  }

  lemma IntToStringRoundTrip(i: int)
    ensures ParseInt(IntToString(i)) == Some(i)
  {
    var n: nat := if i < 0 then -i else i;
    var d := NatToString(n);
    NatToStringRoundTrip(n);
    assert IsDigit(d[0]);
    if i < 0 {
      var s := "-" + d;
      assert s[1..] == d;
      assert ParseInt(s) == Some(-(DigitsValue(d) as int));
    } else {
      assert ParseInt(d) == Some(DigitsValue(d) as int);
    }
  }

  /** Two-digit rendering of the cents part. */
  function TwoDigits(n: nat): (s: string)
    requires n < 100
    ensures |s| == 2 && AllDigits(s)
    ensures DigitsValue(s) == n
  {
    var s := [DigitChar(n / 10), DigitChar(n % 10)];
    assert s[..1] == [DigitChar(n / 10)];
    assert [DigitChar(n / 10)][..0] == [];
    assert DigitsValue(s[..1]) == n / 10;
    s
  }

  /** `(cents / 100).toFixed(2)` for a whole number of cents: sign, whole
      units, a point and exactly two decimals. */
  function CentsToFixed2(cents: int): (s: string)
    ensures |s| >= 4 && s[|s| - 3] == '.'
    ensures AllDigits(s[|s| - 2..])
    ensures cents >= 0 <==> s[0] != '-'
  {
    var a := if cents < 0 then -cents else cents;
    var body := NatToString(a / 100) + "." + TwoDigits(a % 100);
    if cents < 0 then "-" + body else body
  }

  /** Inverse of `CentsToFixed2`: `[-]digits.dd` back to cents. */
  function ParseFixed2(s: string): Option<int> {
    if |s| < 4 || s[|s| - 3] != '.' then None
    else
      var whole := s[..|s| - 3];
      var frac := s[|s| - 2..];
      if !AllDigits(frac) then None
      else match ParseInt(whole)
        case None => None
        case Some(w) =>
          var f := DigitsValue(frac) as int;
          if |whole| > 0 && whole[0] == '-' then Some(w * 100 - f) else Some(w * 100 + f)
  }

  lemma CentsToFixed2RoundTrip(cents: int)
    ensures ParseFixed2(CentsToFixed2(cents)) == Some(cents)
  {
    var a := if cents < 0 then -cents else cents;
    var units := NatToString(a / 100);
    var two := TwoDigits(a % 100);
    var s := CentsToFixed2(cents);
    NatToStringRoundTrip(a / 100);
    if cents < 0 {
      assert s == "-" + units + "." + two;
      assert s[..|s| - 3] == "-" + units;
      assert s[|s| - 2..] == two;
      assert ("-" + units)[1..] == units;
      IntToStringRoundTrip(-(a / 100));
      assert IntToString(-(a / 100)) == "-" + units || a / 100 == 0;
      if a / 100 == 0 {
        assert units == "0";
        assert ParseInt("-" + units) == Some(0);
      }
    } else {
      assert s == units + "." + two;
      assert s[..|s| - 3] == units;
      assert s[|s| - 2..] == two;
    }
  }

  /** `parts.join(sep)`. */
  function Join(parts: seq<string>, sep: string): (s: string)
    ensures |parts| == 1 ==> s == parts[0]
    ensures |parts| == 0 ==> s == ""
  {
    if |parts| == 0 then ""
    else if |parts| == 1 then parts[0]
    else parts[0] + sep + Join(parts[1..], sep)
  }

  /** A joined list is empty exactly when it has no parts, or one empty part
      (the case in which `join(", ") || fallback` picks the fallback). */
  lemma {:induction false} JoinEmpty(parts: seq<string>, sep: string)
    requires |sep| > 0
    ensures Join(parts, sep) == "" <==> |parts| == 0 || (|parts| == 1 && parts[0] == "")
  {
    if |parts| > 1 {
      assert |Join(parts, sep)| >= |sep|;
    }
  }

  /** Index of the first `c` in `s`, or `|s|`. */
  function IndexOfChar(s: string, c: char): (r: nat)
    ensures r <= |s|
    ensures forall j :: 0 <= j < r ==> s[j] != c
    ensures r < |s| ==> s[r] == c
  {
    if |s| == 0 then 0 else if s[0] == c then 0 else 1 + IndexOfChar(s[1..], c)
  }

  /** Splits a `join(", ")` result back into its parts: cut at every comma
      and drop the one blank the separator put after it. */
  function SplitList(s: string): (parts: seq<string>)
    ensures |parts| >= 1
    decreases |s|
  {
    var i := IndexOfChar(s, ',');
    if i == |s| then [s]
    else if i + 1 < |s| && s[i + 1] == ' ' then [s[..i]] + SplitList(s[i + 2..])
    else [s[..i]] + SplitList(s[i + 1..])
  }

  predicate CommaFree(s: string) {
    forall j :: 0 <= j < |s| ==> s[j] != ','
  }

  /** Joining comma-free parts with ", " loses nothing: splitting the
      result gives the parts back. */
  lemma {:induction false} JoinSplitRoundTrip(parts: seq<string>)
    requires |parts| >= 1
    requires forall k :: 0 <= k < |parts| ==> CommaFree(parts[k])
    ensures SplitList(Join(parts, ", ")) == parts
    decreases |parts|
  {
    var p := parts[0];
    if |parts| == 1 {
      assert IndexOfChar(p, ',') == |p|;
    } else {
      var rest := Join(parts[1..], ", ");
      var s := p + ", " + rest;
      assert s == Join(parts, ", ");
      IndexOfCharPrefix(p, ", " + rest);
      assert s == p + (", " + rest);
      assert s[|p| + 1] == ' ';
      assert s[|p| + 2..] == rest;
      assert s[..|p|] == p;
      JoinSplitRoundTrip(parts[1..]);
    }
  }

  /** The first comma of `p + t`, when `p` has none and `t` starts with one,
      is at `|p|`. */
  lemma {:induction false} IndexOfCharPrefix(p: string, t: string)
    requires CommaFree(p)
    requires |t| > 0 && t[0] == ','
    ensures IndexOfChar(p + t, ',') == |p|
    decreases |p|
  {
    if |p| > 0 {
      assert (p + t)[1..] == p[1..] + t;
      IndexOfCharPrefix(p[1..], t);
    }
  }

  /** The characters `String.prototype.trim` strips: ECMAScript WhiteSpace
      and LineTerminator code points. */
  predicate IsJsSpace(c: char) {
    c == '\t' || c == '\n' || c == '\U{000B}' || c == '\U{000C}' || c == '\r' || c == ' '
    || c == '\U{00A0}' || c == '\U{1680}' || ('\U{2000}' <= c <= '\U{200A}')
    || c == '\U{2028}' || c == '\U{2029}' || c == '\U{202F}' || c == '\U{205F}'
    || c == '\U{3000}' || c == '\U{FEFF}'
  }

  predicate AllSpace(s: string) {
    forall i :: 0 <= i < |s| ==> IsJsSpace(s[i])
  }

  /** Number of white-space characters at the start of `s`. */
  function LeadingSpaces(s: string): (k: nat)
    ensures k <= |s|
    ensures forall i :: 0 <= i < k ==> IsJsSpace(s[i])
    ensures k < |s| ==> !IsJsSpace(s[k])
  {
    if |s| > 0 && IsJsSpace(s[0]) then 1 + LeadingSpaces(s[1..]) else 0
  }

  /** Number of white-space characters at the end of `s`. */
  function TrailingSpaces(s: string): (k: nat)
    ensures k <= |s|
    ensures forall i :: |s| - k <= i < |s| ==> IsJsSpace(s[i])
    ensures k < |s| ==> !IsJsSpace(s[|s| - k - 1])
  {
    if |s| > 0 && IsJsSpace(s[|s| - 1]) then 1 + TrailingSpaces(s[..|s| - 1]) else 0
  }

  /** `s.trim()`: drop leading, then trailing white space. */
  function Trim(s: string): (r: string)
    ensures |r| > 0 ==> !IsJsSpace(r[0]) && !IsJsSpace(r[|r| - 1])
  {
    var t := s[LeadingSpaces(s)..];
    t[..|t| - TrailingSpaces(t)]
  }

  /** A string trims to "" exactly when every character is white space. */
  lemma TrimEmptyIffAllSpace(s: string)
    ensures Trim(s) == "" <==> AllSpace(s)
  {
  }

  /** ASCII lower-casing (`toLowerCase` restricted to A-Z). */
  function LowerChar(c: char): (r: char)
    ensures !('A' <= r <= 'Z')
    ensures !('A' <= c <= 'Z') ==> r == c
  {
    if 'A' <= c <= 'Z' then (c as int + 32) as char else c
  }

  function Lower(s: string): (r: string)
    ensures |r| == |s|
    ensures forall i :: 0 <= i < |s| ==> r[i] == LowerChar(s[i])
  {
    seq(|s|, i requires 0 <= i < |s| => LowerChar(s[i]))
  }

  /** Lower-casing twice is lower-casing once. */
  lemma LowerIdempotent(s: string)
    ensures Lower(Lower(s)) == Lower(s)
  {
  }
}
