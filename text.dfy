/** Decimal rendering of numbers and JavaScript's `parseInt`, as the handlers use them. */
module Text {
  import opened Common

  predicate IsDigit(c: char) { '0' <= c <= '9' }

  function DigitChar(d: int): (c: char)
    requires 0 <= d < 10
    ensures IsDigit(c) && c as int - '0' as int == d
  {
    ('0' as int + d) as char
  }

  /** The value of `c` as a digit in base `radix` (10 or 16), or -1 when it is not one. */
  function DigitValue(c: char, radix: int): int
  {
    if '0' <= c <= '9' && c as int - '0' as int < radix then c as int - '0' as int
    else if radix == 16 && 'a' <= c <= 'f' then c as int - 'a' as int + 10
    else if radix == 16 && 'A' <= c <= 'F' then c as int - 'A' as int + 10
    else -1
  }

  predicate AllDigits(s: string, radix: int) {
    forall i :: 0 <= i < |s| ==> DigitValue(s[i], radix) >= 0
  }

  /** The number a string of base-`radix` digits denotes, most significant digit first. */
  function ValueOf(s: string, radix: int): nat
    requires AllDigits(s, radix)
  {
    if s == [] then 0 else ValueOf(s[..|s| - 1], radix) * radix + DigitValue(s[|s| - 1], radix)
  }

  /** Decimal digits of `n` without leading zeros (`String(n)` for a non-negative integer). */
  function NatToString(n: nat): (s: string)
    ensures |s| >= 1 && AllDigits(s, 10)
    ensures forall i :: 0 <= i < |s| ==> IsDigit(s[i])
  {
    if n < 10 then [DigitChar(n)] else NatToString(n / 10) + [DigitChar(n % 10)]
  }

  /** `String(n)` for an integer: an optional minus sign and the decimal digits. */
  function IntToString(n: int): string
  {
    if n < 0 then "-" + NatToString(-n) else NatToString(n)
  }

  lemma {:induction false} NatToStringRoundTrip(n: nat)
    ensures ValueOf(NatToString(n), 10) == n
  {
    if n >= 10 {
      NatToStringRoundTrip(n / 10);
      var s := NatToString(n);
      assert s[..|s| - 1] == NatToString(n / 10);
    }
  }

  /** `part` occurs in `s` starting at index `i`. */
  predicate OccursAt(s: string, part: string, i: int) {
    0 <= i <= |s| - |part| && s[i..i + |part|] == part
  }

  predicate Contains(s: string, part: string) {
    exists i :: 0 <= i <= |s| && OccursAt(s, part, i)
  }

  lemma ContainsMiddle(pre: string, part: string, post: string)
    ensures Contains(pre + part + post, part)
  {
    var s := pre + part + post;
    assert s[|pre|..|pre| + |part|] == part;
    assert OccursAt(s, part, |pre|);
  }

  lemma ContainsAfter(x: string, y: string, part: string)
    requires Contains(y, part)
    ensures Contains(x + y, part)
  {
    var i :| 0 <= i <= |y| && OccursAt(y, part, i);
    assert (x + y)[|x| + i..|x| + i + |part|] == y[i..i + |part|];
    assert OccursAt(x + y, part, |x| + i);
  }

  /** The pieces of a template literal joined in order. */
  function Concat(pieces: seq<string>): string
  {
    if pieces == [] then [] else pieces[0] + Concat(pieces[1..])
  }

  /** Every piece occurs in the joined text. */
  lemma {:induction false} ConcatContains(pieces: seq<string>, j: int)
    requires 0 <= j < |pieces|
    ensures Contains(Concat(pieces), pieces[j])
  {
    if j == 0 {
      ContainsMiddle([], pieces[0], Concat(pieces[1..]));
      assert [] + pieces[0] + Concat(pieces[1..]) == Concat(pieces);
    } else {
      ConcatContains(pieces[1..], j - 1);
      ContainsAfter(pieces[0], Concat(pieces[1..]), pieces[j]);
    }
  }

  lemma ConcatFirst(pieces: seq<string>)
    requires pieces != [] && pieces[0] != []
    ensures Concat(pieces) != [] && Concat(pieces)[0] == pieces[0][0]
  {
  }

  lemma {:induction false} ConcatLast(pieces: seq<string>)
    requires pieces != [] && pieces[|pieces| - 1] != []
    ensures Concat(pieces) != [] && Concat(pieces)[|Concat(pieces)| - 1] == pieces[|pieces| - 1][|pieces[|pieces| - 1]| - 1]
  {
    if |pieces| > 1 {
      ConcatLast(pieces[1..]);
    }
  }

  /** White space and line terminators that `parseInt` skips at the front
      (ECMAScript's StrWhiteSpaceChar). */
  predicate IsStrWhiteSpace(c: char) {
    c == '\t' || c == '\n' || c == '\U{000B}' || c == '\U{000C}' || c == '\r' || c == ' '
    || c == '\U{00A0}' || c == '\U{1680}' || ('\U{2000}' <= c <= '\U{200A}')
    || c == '\U{2028}' || c == '\U{2029}' || c == '\U{202F}' || c == '\U{205F}'
    || c == '\U{3000}' || c == '\U{FEFF}'
  }

  function TrimStart(s: string): (r: string)
    ensures |r| <= |s| && r == s[|s| - |r|..]
    ensures r == [] || !IsStrWhiteSpace(r[0])
    ensures forall i :: 0 <= i < |s| - |r| ==> IsStrWhiteSpace(s[i])
  {
    if s != [] && IsStrWhiteSpace(s[0]) then
      var r := TrimStart(s[1..]);
      assert s[|s| - |r|..] == s[1..][|s| - 1 - |r|..];
      assert forall i :: 1 <= i < |s| - |r| ==> s[i] == s[1..][i - 1];
      r
    else s
  }

  /** Length of the longest prefix of `s` made of base-`radix` digits. */
  function DigitRun(s: string, radix: int): (n: nat)
    ensures n <= |s| && AllDigits(s[..n], radix)
    ensures n < |s| ==> DigitValue(s[n], radix) < 0
  {
    if s == [] || DigitValue(s[0], radix) < 0 then 0
    else
      var k := DigitRun(s[1..], radix);
      assert s[..k + 1] == [s[0]] + s[1..][..k];
      k + 1
  }

  /** The digits after the sign: a `0x`/`0X` prefix selects base 16, and the
      longest run of digits that follows is read; `None` when that run is empty. */
  function ParseMagnitude(u: string): Option<int>
  {
    var hex := |u| >= 2 && u[0] == '0' && (u[1] == 'x' || u[1] == 'X');
    var radix := if hex then 16 else 10;
    var digits := if hex then u[2..] else u;
    var z := digits[..DigitRun(digits, radix)];
    if z == [] then None else Some(ValueOf(z, radix))
  }

  /** JavaScript's `parseInt(s)` with no radix argument; `None` stands for NaN.
      Leading white space is skipped and one sign is accepted. */
  function ParseInt(s: string): Option<int>
  {
    var t := TrimStart(s);
    var signed := |t| > 0 && (t[0] == '-' || t[0] == '+');
    var magnitude := ParseMagnitude(if signed then t[1..] else t);
    if magnitude.Some? && signed && t[0] == '-' then Some(-magnitude.value) else magnitude
  }

  /** A string of decimal digits is read whole, in base 10. */
  lemma ParseDigits(d: string)
    requires |d| >= 1 && AllDigits(d, 10)
    ensures ParseMagnitude(d) == Some(ValueOf(d, 10) as int)
  {
    if |d| >= 2 { assert DigitValue(d[1], 10) >= 0; }
    DigitRunAll(d, 10);
    assert d[..|d|] == d;
  }

  lemma {:induction false} DigitRunAll(d: string, radix: int)
    requires AllDigits(d, radix)
    ensures DigitRun(d, radix) == |d|
  {
    if d != [] {
      assert DigitValue(d[0], radix) >= 0;
      DigitRunAll(d[1..], radix);
    }
  }

  lemma ParseUnsigned(d: string)
    requires |d| >= 1 && AllDigits(d, 10)
    ensures ParseInt(d) == Some(ValueOf(d, 10) as int)
  {
    ParseDigits(d);
    assert DigitValue(d[0], 10) >= 0;
    assert !IsStrWhiteSpace(d[0]);
    assert TrimStart(d) == d;
  }

  lemma ParseNegative(s: string)
    requires |s| >= 2 && s[0] == '-' && AllDigits(s[1..], 10)
    ensures ParseInt(s) == Some(-(ValueOf(s[1..], 10) as int))
  {
    ParseDigits(s[1..]);
    TrimStartStops(s);
  }

  lemma TrimStartStops(s: string)
    requires s != [] && !IsStrWhiteSpace(s[0])
    ensures TrimStart(s) == s
  {
  }

  /** What the dashboard writes into `startTime=${start}` is read back by the
      server's `parseInt` as the same integer. */
  lemma ParseIntRoundTrip(n: int)
    ensures ParseInt(IntToString(n)) == Some(n)
  {
    var m: nat := if n < 0 then -n else n;
    NatToStringRoundTrip(m);
    if n < 0 {
      assert ("-" + NatToString(m))[1..] == NatToString(m);
      ParseNegative("-" + NatToString(m));
    } else {
      ParseUnsigned(NatToString(m));
    }
  }

  function TrimEnd(s: string): (r: string)
    ensures |r| <= |s| && r == s[..|r|]
    ensures r == [] || !IsStrWhiteSpace(r[|r| - 1])
  {
    if s != [] && IsStrWhiteSpace(s[|s| - 1]) then TrimEnd(s[..|s| - 1]) else s
  }

  predicate AllWhiteSpace(s: string) {
    forall i :: 0 <= i < |s| ==> IsStrWhiteSpace(s[i])
  }

  /** `String.prototype.trim`: white space and line terminators off both ends. */
  function Trim(s: string): (r: string)
    ensures |r| <= |s|
    ensures r == [] || (!IsStrWhiteSpace(r[0]) && !IsStrWhiteSpace(r[|r| - 1]))
    ensures AllWhiteSpace(s) ==> r == []
  {
    TrimEnd(TrimStart(s))
  }

  lemma {:induction false} TrimStartSkips(ws: string, rest: string)
    requires AllWhiteSpace(ws) && rest != [] && !IsStrWhiteSpace(rest[0])
    ensures TrimStart(ws + rest) == rest
  {
    if ws != [] {
      assert (ws + rest)[1..] == ws[1..] + rest;
      TrimStartSkips(ws[1..], rest);
    } else {
      assert ws + rest == rest;
    }
  }

  lemma {:induction false} TrimEndSkips(rest: string, ws: string)
    requires AllWhiteSpace(ws) && rest != [] && !IsStrWhiteSpace(rest[|rest| - 1])
    ensures TrimEnd(rest + ws) == rest
  {
    if ws != [] {
      var ws' := ws[..|ws| - 1];
      assert (rest + ws)[..|rest + ws| - 1] == rest + ws';
      TrimEndSkips(rest, ws');
    } else {
      assert rest + ws == rest;
    }
  }

  /** Trimming text that starts and ends with visible characters inside blank
      padding gives back the text. */
  lemma TrimPadded(lead: string, body: string, trail: string)
    requires AllWhiteSpace(lead) && AllWhiteSpace(trail)
    requires body != [] && !IsStrWhiteSpace(body[0]) && !IsStrWhiteSpace(body[|body| - 1])
    ensures Trim(lead + body + trail) == body
  {
    assert lead + body + trail == lead + (body + trail);
    TrimStartSkips(lead, body + trail);
    TrimEndSkips(body, trail);
  }

  /** `x.toFixed(1)` for `|x| < 1e21`: a minus sign for negative `x`, then
      `|x|` rounded to tenths with halves rounded up, as integer digits, a
      point and one decimal. */
  function Fixed1(x: real): string
  {
    var a := if x < 0.0 then -x else x;
    var n := (a * 10.0 + 0.5).Floor;
    (if x < 0.0 then "-" else "") + NatToString(n / 10) + "." + [DigitChar(n % 10)]
  }

  /** Reads an optional minus sign followed by decimal digits. */
  function ReadWhole(body: string): Option<(bool, nat)>
  {
    var negative := body != [] && body[0] == '-';
    var digits := if negative then body[1..] else body;
    if digits == [] || !AllDigits(digits, 10) then None else Some((negative, ValueOf(digits, 10)))
  }

  /** Reads back a decimal with exactly one fractional digit and an optional minus sign. */
  function ReadFixed1(s: string): Option<real>
  {
    if |s| < 3 || s[|s| - 2] != '.' || !IsDigit(s[|s| - 1]) then None
    else
      match ReadWhole(s[..|s| - 2])
      case None => None
      case Some((negative, k)) =>
        var v := (k * 10 + (s[|s| - 1] as int - '0' as int)) as real / 10.0;
        Some(if negative then -v else v)
  }

  lemma ReadWholeOf(negative: bool, k: nat)
    ensures ReadWhole((if negative then "-" else "") + NatToString(k)) == Some((negative, k))
  {
    NatToStringRoundTrip(k);
    if negative {
      ReadWholeNegative(NatToString(k));
    } else {
      assert "" + NatToString(k) == NatToString(k);
      ReadWholeDigits(NatToString(k));
    }
  }

  lemma ReadWholeDigits(q: string)
    requires q != [] && AllDigits(q, 10) && IsDigit(q[0])
    ensures ReadWhole(q) == Some((false, ValueOf(q, 10)))
  {
  }

  lemma ReadWholeNegative(q: string)
    requires q != [] && AllDigits(q, 10)
    ensures ReadWhole("-" + q) == Some((true, ValueOf(q, 10)))
  {
    assert ("-" + q)[1..] == q;
  }

  /** Reading `w.c` splits at the point: the whole part `w`, and the digit `c`. */
  lemma ReadFixed1Split(w: string, c: char, negative: bool, k: nat, d: int)
    requires |w| >= 1 && IsDigit(c) && c as int - '0' as int == d
    requires ReadWhole(w) == Some((negative, k))
    ensures ReadFixed1(w + "." + [c]) ==
      Some(if negative then -((k * 10 + d) as real / 10.0) else (k * 10 + d) as real / 10.0)
  {
    var s := w + "." + [c];
    assert s[..|s| - 2] == w;
    assert s[|s| - 2] == '.' && s[|s| - 1] == c;
  }

  lemma ReadFixed1Of(negative: bool, k: nat, d: int)
    requires 0 <= d < 10
    ensures ReadFixed1((if negative then "-" else "") + NatToString(k) + "." + [DigitChar(d)]) ==
      Some(if negative then -((k * 10 + d) as real / 10.0) else (k * 10 + d) as real / 10.0)
  {
    var w := (if negative then "-" else "") + NatToString(k);
    ReadWholeOf(negative, k);
    ReadFixed1Split(w, DigitChar(d), negative, k, d);
  }

  /** `toFixed(1)` renders a number that reads back within half a tenth of it. */
  lemma Fixed1RoundTrip(x: real)
    ensures ReadFixed1(Fixed1(x)).Some?
    ensures -0.05 <= ReadFixed1(Fixed1(x)).value - x <= 0.05
  {
    var a := if x < 0.0 then -x else x;
    var n := (a * 10.0 + 0.5).Floor;
    assert Fixed1(x) == (if x < 0.0 then "-" else "") + NatToString(n / 10) + "." + [DigitChar(n % 10)];
    ReadFixed1Of(x < 0.0, n / 10, n % 10);
    assert (n / 10) * 10 + n % 10 == n;
    var v := n as real / 10.0;
    assert ReadFixed1(Fixed1(x)) == Some(if x < 0.0 then -v else v);
    assert n as real <= a * 10.0 + 0.5 < n as real + 1.0;
    assert a - 0.05 < v <= a + 0.05;
  }
}
