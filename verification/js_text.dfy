/** The pieces of JavaScript string behaviour the message code relies on:
    `Array.prototype.join`, truthiness and interpolation of optional strings,
    the decimal rendering of an integer `number`, and the leftmost match of
    the nonce pattern `/[a-zA-Z0-9]{8,}/`. */
module JsText {
  import opened Wrappers

  /** A property is truthy when it is present and not the empty string. */
  predicate Truthy(s: Option<string>)
  {
    s.Some? && s.value != ""
  }

  /** A template literal `${x}` renders an absent property as "undefined". */
  function Interpolate(s: Option<string>): string
  {
    match s
    case Some(v) => v
    case None => "undefined"
  }

  /** `Array.prototype.join` renders an absent element as the empty string. */
  function JoinElement(s: Option<string>): string
  {
    match s
    case Some(v) => v
    case None => ""
  }

  /** `Array.prototype.join(sep)`: the parts with `sep` between neighbours and
      nothing before the first or after the last. */
  function Join(parts: seq<string>, sep: string): string
  {
    if |parts| == 0 then ""
    else if |parts| == 1 then parts[0]
    else parts[0] + sep + Join(parts[1..], sep)
  }

  lemma JoinCons(x: string, rest: seq<string>, sep: string)
    requires |rest| > 0
    ensures Join([x] + rest, sep) == x + sep + Join(rest, sep)
  {
    assert ([x] + rest)[1..] == rest;
  }

  /** Joining a concatenation puts one separator at the seam. */
  lemma {:induction false} JoinAppend(a: seq<string>, b: seq<string>, sep: string)
    requires |a| > 0 && |b| > 0
    ensures Join(a + b, sep) == Join(a, sep) + sep + Join(b, sep)
  {
    if |a| == 1 {
      assert a + b == [a[0]] + b;
      JoinCons(a[0], b, sep);
    } else {
      assert a + b == [a[0]] + (a[1..] + b);
      JoinCons(a[0], a[1..] + b, sep);
      JoinAppend(a[1..], b, sep);
      assert a == [a[0]] + a[1..];
      JoinCons(a[0], a[1..], sep);
    }
  }

  /** Joining an element that is itself a join flattens it. */
  lemma JoinFlatten(a: seq<string>, b: seq<string>, sep: string)
    requires |a| > 0 && |b| > 0
    ensures Join(a + [Join(b, sep)], sep) == Join(a + b, sep)
  {
    JoinAppend(a, [Join(b, sep)], sep);
    JoinAppend(a, b, sep);
  }

  // ---------------------------------------------------------------------------
  // Decimal rendering of an integer-valued `number` (`"" + n`)

  predicate IsDigit(c: char)
  {
    '0' <= c <= '9'
  }

  function DigitChar(d: nat): (c: char)
    requires d < 10
    ensures IsDigit(c) && c as int - '0' as int == d
  {
    ('0' as int + d) as char
  }

  function NatToString(n: nat): (s: string)
    ensures |s| > 0
    ensures forall i :: 0 <= i < |s| ==> IsDigit(s[i])
    ensures n > 0 ==> s[0] != '0'
    decreases n
  {
    if n < 10 then [DigitChar(n)]
    else NatToString(n / 10) + [DigitChar(n % 10)]
  }

  /** The string JavaScript produces for an integer: a minus sign for negative
      values, then the decimal digits with no leading zero. */
  function IntToString(i: int): string
  {
    if i < 0 then "-" + NatToString(-i) else NatToString(i)
  }

  /** Reads back a non-empty run of decimal digits. */
  function ParseDigits(s: string): nat
    requires |s| > 0 && forall i :: 0 <= i < |s| ==> IsDigit(s[i])
    decreases |s|
  {
    assert IsDigit(s[|s| - 1]);
    var last: nat := s[|s| - 1] as int - '0' as int;
    if |s| == 1 then last else ParseDigits(s[..|s| - 1]) * 10 + last
  }

  /** Reads back an optional minus sign followed by decimal digits. */
  function ParseInt(s: string): Option<int>
  {
    if |s| > 0 && s[0] == '-' then
      var t := s[1..];
      if |t| > 0 && forall i :: 0 <= i < |t| ==> IsDigit(t[i]) then Some(0 - ParseDigits(t)) else None
    else if |s| > 0 && forall i :: 0 <= i < |s| ==> IsDigit(s[i]) then Some(ParseDigits(s))
    else None
  }

  lemma {:induction false} NatToStringRoundTrip(n: nat)
    ensures ParseDigits(NatToString(n)) == n
    decreases n
  {
    if n >= 10 {
      var s := NatToString(n);
      assert s[..|s| - 1] == NatToString(n / 10);
      NatToStringRoundTrip(n / 10);
    }
  }

  /** The rendering is faithful: reading it back gives the same integer, so
      distinct chain ids never render alike. */
  lemma IntToStringRoundTrip(i: int)
    ensures ParseInt(IntToString(i)) == Some(i)
  {
    if i < 0 {
      var t := NatToString(-i);
      NatToStringRoundTrip(-i);
      var s := "-" + t;
      assert s[0] == '-';
      assert s[1..] == t;
      assert ParseInt(s) == Some(0 - ParseDigits(t));
    } else {
      var t := NatToString(i);
      NatToStringRoundTrip(i);
      assert t[0] != '-';
    }
  }

  lemma IntToStringInjective(i: int, j: int)
    ensures IntToString(i) == IntToString(j) ==> i == j
  {
    IntToStringRoundTrip(i);
    IntToStringRoundTrip(j);
  }

  // ---------------------------------------------------------------------------
  // The nonce pattern `/[a-zA-Z0-9]{8,}/` (unanchored, greedy)

  predicate IsAlnum(c: char)
  {
    'a' <= c <= 'z' || 'A' <= c <= 'Z' || '0' <= c <= '9'
  }

  predicate AllAlnum(s: string)
  {
    forall i :: 0 <= i < |s| ==> IsAlnum(s[i])
  }

  /** The length of the longest alphanumeric run starting at position `i`. */
  function AlnumRunFrom(s: string, i: nat): (n: nat)
    requires i <= |s|
    ensures i + n <= |s|
    ensures forall k :: i <= k < i + n ==> IsAlnum(s[k])
    ensures i + n < |s| ==> !IsAlnum(s[i + n])
    decreases |s| - i
  {
    if i == |s| || !IsAlnum(s[i]) then 0 else 1 + AlnumRunFrom(s, i + 1)
  }

  /** A match of the pattern occupies `s[start..end]`. */
  datatype Match = Match(start: nat, end: nat)

  /** Tries the pattern "at least `min` alphanumerics, greedy" at positions
      `i`, `i + 1`, ... and returns the first position where it matches. */
  function SearchRunFrom(s: string, i: nat, min: nat): (r: Option<Match>)
    requires i <= |s|
    ensures r.None? <==> forall j :: i <= j <= |s| ==> AlnumRunFrom(s, j) < min
    ensures r.Some? ==>
      && i <= r.value.start <= r.value.end <= |s|
      && r.value.end == r.value.start + AlnumRunFrom(s, r.value.start)
      && AlnumRunFrom(s, r.value.start) >= min
      && forall j :: i <= j < r.value.start ==> AlnumRunFrom(s, j) < min
    decreases |s| - i
  {
    var n := AlnumRunFrom(s, i);
    if n >= min then assert AlnumRunFrom(s, i) >= min; Some(Match(i, i + n))
    else if i == |s| then None
    else SearchRunFrom(s, i + 1, min)
  }

  /** `s.match(/[a-zA-Z0-9]{8,}/)`: the leftmost match, or `null` (`None`). */
  function MatchAlnumRun8(s: string): Option<Match>
  {
    SearchRunFrom(s, 0, 8)
  }

  lemma {:induction false} AllAlnumRun(s: string, i: nat)
    requires i <= |s|
    requires forall k :: i <= k < |s| ==> IsAlnum(s[k])
    ensures AlnumRunFrom(s, i) == |s| - i
    decreases |s| - i
  {
    if i < |s| {
      AllAlnumRun(s, i + 1);
    }
  }

  /** The matched text is the whole string exactly when the string is eight or
      more alphanumerics, so the code's `match[0] === nonce` test amounts to
      the anchored pattern `^[a-zA-Z0-9]{8,}$`. */
  lemma MatchIsWholeIff(s: string)
    ensures (MatchAlnumRun8(s).Some? && s[MatchAlnumRun8(s).value.start..MatchAlnumRun8(s).value.end] == s)
            <==> (|s| >= 8 && AllAlnum(s))
  {
    var r := MatchAlnumRun8(s);
    if |s| >= 8 && AllAlnum(s) {
      AllAlnumRun(s, 0);
      assert r == Some(Match(0, |s|));
      assert s[0..|s|] == s;
    }
    if r.Some? && s[r.value.start..r.value.end] == s {
      assert r.value.start == 0 && r.value.end == |s|;
      assert AlnumRunFrom(s, 0) == |s|;
      assert forall k :: 0 <= k < |s| ==> IsAlnum(s[k]);
    }
  }
}
