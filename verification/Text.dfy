/** The string operations the program relies on: decimal printing and parsing, splitting, trimming. */
module Text {
  import opened Common

  // ---------------------------------------------------------------- digits

  predicate IsDigit(c: char) {
    '0' <= c <= '9'
  }

  predicate AllDigits(s: string) {
    forall i :: 0 <= i < |s| ==> IsDigit(s[i])
  }

  function DigitChar(d: nat): (c: char)
    requires d < 10
    ensures IsDigit(c) && c as int - '0' as int == d
  {
    '0' + d as char
  }

  function DigitsValue(s: string): nat
    requires AllDigits(s)
  {
    if s == "" then 0 else DigitsValue(s[..|s| - 1]) * 10 + (s[|s| - 1] as int - '0' as int)
  }

  function Digits(n: nat): (s: string)
    ensures |s| > 0 && AllDigits(s)
  {
    if n < 10 then [DigitChar(n)] else Digits(n / 10) + [DigitChar(n % 10)]
  }

  lemma {:induction false} DigitsRoundTrip(n: nat)
    ensures DigitsValue(Digits(n)) == n
  {
    if n >= 10 {
      DigitsRoundTrip(n / 10);
      assert Digits(n)[..|Digits(n)| - 1] == Digits(n / 10);
    } else {
      assert Digits(n)[..0] == "";
    }
  }

  function Power10(k: nat): (p: nat)
    ensures p > 0
  {
    if k == 0 then 1 else 10 * Power10(k - 1)
  }

  lemma Power10Step(n: nat, i: nat)
    ensures n / Power10(i + 1) == n / 10 / Power10(i)
  {
    NestedDivision(n, 10, Power10(i));
  }

  /** The numeral itself: decimal, most significant digit first, and no leading zero. */
  lemma {:induction false} DigitsAreDecimal(n: nat, i: nat)
    requires i < |Digits(n)|
    ensures Digits(n)[|Digits(n)| - 1 - i] as int - '0' as int == n / Power10(i) % 10
    ensures Digits(n)[0] == '0' ==> n == 0
  {
    if n >= 10 {
      if i > 0 {
        DigitsAreDecimal(n / 10, i - 1);
        Power10Step(n, i - 1);
      } else {
        DigitsAreDecimal(n / 10, 0);
      }
    }
  }

  /** And its value, for any numeral. */
  lemma {:induction false} ValueIsDecimal(s: string, i: nat)
    requires AllDigits(s) && i < |s|
    ensures DigitsValue(s) / Power10(i) % 10 == s[|s| - 1 - i] as int - '0' as int
    ensures DigitsValue(s) < Power10(|s|)
  {
    var front := s[..|s| - 1];
    if i > 0 {
      ValueIsDecimal(front, i - 1);
      Power10Step(DigitsValue(s), i - 1);
      assert DigitsValue(s) / 10 == DigitsValue(front);
    } else if front != "" {
      ValueIsDecimal(front, 0);
    }
  }

  /** Among numerals of one length, the value determines the numeral. */
  lemma {:induction false} DigitsValueInjective(a: string, b: string)
    requires AllDigits(a) && AllDigits(b) && |a| == |b| && DigitsValue(a) == DigitsValue(b)
    ensures a == b
  {
    if a != "" {
      var last := |a| - 1;
      DigitsValueInjective(a[..last], b[..last]);
      assert a == a[..last] + [a[last]] && b == b[..last] + [b[last]];
    }
  }

  // ---------------------------------------------------------------- trimming

  function TrimStart(s: string, drop: char -> bool): (r: string)
    ensures |r| <= |s|
  {
    if s != "" && drop(s[0]) then TrimStart(s[1..], drop) else s
  }

  function TrimEnd(s: string, drop: char -> bool): (r: string)
    ensures |r| <= |s|
  {
    if s != "" && drop(s[|s| - 1]) then TrimEnd(s[..|s| - 1], drop) else s
  }

  function TrimBy(s: string, drop: char -> bool): string {
    TrimEnd(TrimStart(s, drop), drop)
  }

  /** No character to drop at either end. */
  predicate TrimmedBy(s: string, drop: char -> bool) {
    s != "" ==> !drop(s[0]) && !drop(s[|s| - 1])
  }

  lemma TrimOfTrimmed(s: string, drop: char -> bool)
    requires TrimmedBy(s, drop)
    ensures TrimBy(s, drop) == s
  {
  }

  lemma {:induction false} TrimStartShape(s: string, drop: char -> bool)
    ensures var r := TrimStart(s, drop);
            r == s[|s| - |r|..] && (r != "" ==> !drop(r[0])) && (s != "" && !drop(s[0]) ==> r == s)
  {
    if s != "" && drop(s[0]) {
      TrimStartShape(s[1..], drop);
    }
  }

  lemma {:induction false} TrimEndShape(s: string, drop: char -> bool)
    ensures var r := TrimEnd(s, drop);
            r == s[..|r|] && (r != "" ==> !drop(r[|r| - 1])) && (s != "" && !drop(s[|s| - 1]) ==> r == s)
  {
    if s != "" && drop(s[|s| - 1]) {
      TrimEndShape(s[..|s| - 1], drop);
    }
  }

  /** A trimmed piece of the string, which keeps an end that is not to be dropped. */
  lemma TrimShape(s: string, drop: char -> bool)
    ensures var r := TrimBy(s, drop);
            && TrimmedBy(r, drop) && (forall c :: c in r ==> c in s)
            && (s != "" && !drop(s[0]) ==> r != "" && r[0] == s[0])
            && (s != "" && !drop(s[|s| - 1]) ==> r != "" && r[|r| - 1] == s[|s| - 1])
  {
    TrimStartShape(s, drop);
    TrimEndShape(TrimStart(s, drop), drop);
    if s != "" && !drop(s[|s| - 1]) {
      TrimStartKeepsEnd(s, drop);
    }
    if s != "" && !drop(s[0]) {
      TrimEndKeepsStart(s, drop);
    }
  }

  lemma {:induction false} TrimEndKeepsStart(s: string, drop: char -> bool)
    requires s != "" && !drop(s[0])
    ensures TrimEnd(s, drop) != ""
  {
    if drop(s[|s| - 1]) {
      TrimEndKeepsStart(s[..|s| - 1], drop);
    }
  }

  lemma {:induction false} TrimStartKeepsEnd(s: string, drop: char -> bool)
    requires s != "" && !drop(s[|s| - 1])
    ensures TrimStart(s, drop) != ""
  {
    if drop(s[0]) {
      TrimStartKeepsEnd(s[1..], drop);
    }
  }

  predicate AllAre(s: string, p: char -> bool) {
    forall i :: 0 <= i < |s| ==> p(s[i])
  }

  lemma {:induction false} TrimStartOfPadded(pad: string, s: string, drop: char -> bool)
    requires AllAre(pad, drop) && (s == "" || !drop(s[0]))
    ensures TrimStart(pad + s, drop) == s
  {
    if pad == "" {
      assert pad + s == s;
    } else {
      assert (pad + s)[1..] == pad[1..] + s;
      TrimStartOfPadded(pad[1..], s, drop);
    }
  }

  lemma {:induction false} TrimEndOfPadded(s: string, pad: string, drop: char -> bool)
    requires AllAre(pad, drop) && (s == "" || !drop(s[|s| - 1]))
    ensures TrimEnd(s + pad, drop) == s
  {
    if pad == "" {
      assert s + pad == s;
    } else {
      var n := |pad| - 1;
      assert (s + pad)[..|s| + n] == s + pad[..n];
      TrimEndOfPadded(s, pad[..n], drop);
    }
  }

  /** Trimming takes any padding off a trimmed string. */
  lemma TrimOfPadded(before: string, s: string, after: string, drop: char -> bool)
    requires AllAre(before, drop) && AllAre(after, drop) && TrimmedBy(s, drop)
    ensures TrimBy(before + s + after, drop) == s
  {
    if s == "" {
      assert before + s + after == before + after + "";
      TrimStartOfPadded(before + after, "", drop);
    } else {
      assert before + s + after == before + (s + after);
      TrimStartOfPadded(before, s + after, drop);
      TrimEndOfPadded(s, after, drop);
    }
  }

  /** Around a character that stays, each side is trimmed on its own outer end. */
  lemma TrimAround(left: string, c: char, right: string, drop: char -> bool)
    requires !drop(c)
    ensures TrimBy(left + [c] + right, drop) == TrimStart(left, drop) + [c] + TrimEnd(right, drop)
  {
    var front := TrimStart(left, drop) + [c];
    assert left + [c] + right == left + ([c] + right);
    TrimStartBefore(left, [c] + right, drop);
    assert TrimStart(left, drop) + ([c] + right) == front + right;
    TrimEndAfter(front, right, drop);
  }

  lemma {:induction false} TrimStartBefore(left: string, rest: string, drop: char -> bool)
    requires rest != "" && !drop(rest[0])
    ensures TrimStart(left + rest, drop) == TrimStart(left, drop) + rest
  {
    if left == "" {
      assert left + rest == rest;
    } else {
      ConcatSplits(left, rest);
      TrimStartBefore(left[1..], rest, drop);
    }
  }

  lemma {:induction false} TrimEndAfter(front: string, right: string, drop: char -> bool)
    requires front != "" && !drop(front[|front| - 1])
    ensures TrimEnd(front + right, drop) == front + TrimEnd(right, drop)
  {
    if right == "" {
      assert front + right == front;
    } else {
      var n := |right| - 1;
      assert (front + right)[..|front| + n] == front + right[..n];
      TrimEndAfter(front, right[..n], drop);
    }
  }

  // ---------------------------------------------------------------- splitting

  function IndexOf(s: string, c: char): (i: nat)
    ensures i <= |s| && (i < |s| ==> s[i] == c) && forall j :: 0 <= j < i ==> s[j] != c
  {
    if s == "" || s[0] == c then 0 else 1 + IndexOf(s[1..], c)
  }

  /** `s.Split(c)` */
  function Split(s: string, c: char): (parts: seq<string>)
    ensures |parts| > 0
    decreases |s|
  {
    var i := IndexOf(s, c);
    if i == |s| then [s] else [s[..i]] + Split(s[i + 1..], c)
  }

  lemma SplitNone(s: string, c: char)
    requires c !in s
    ensures Split(s, c) == [s]
  {
  }

  lemma SplitOnce(a: string, b: string, c: char)
    requires c !in a
    ensures Split(a + [c] + b, c) == [a] + Split(b, c)
  {
    var s := a + [c] + b;
    var i := IndexOf(s, c);
    assert s[|a|] == c;
    assert forall j :: 0 <= j < |a| ==> s[j] == a[j] && a[j] in a;
    assert s[..i] == a && s[i + 1..] == b;
  }

  lemma SplitTwice(a: string, b: string, more: string, c: char)
    requires c !in a && c !in b && (more == "" || more[0] == c)
    ensures var parts := Split(a + [c] + (b + more), c); |parts| >= 2 && parts[0] == a && parts[1] == b
  {
    SplitOnce(a, b + more, c);
    if more == "" {
      assert b + more == b;
      SplitNone(b, c);
    } else {
      assert b + more == b + [c] + more[1..];
      SplitOnce(b, more[1..], c);
    }
  }

  // ---------------------------------------------------------------- int.Parse and int printing

  predicate IsBlank(c: char) {
    c == ' ' || '\t' <= c <= '\r'
  }

  /** `int.Parse`: optional blanks and sign around at least one digit, within the range of `int`. */
  function ParseInt(text: string): Outcome<Int32> {
    var s := TrimBy(text, IsBlank);
    if s == "" then Failed
    else
      var negative := s[0] == '-';
      var digits := if negative || s[0] == '+' then s[1..] else s;
      if digits == "" || !AllDigits(digits) then Failed
      else
        var magnitude: int := DigitsValue(digits);
        var v := if negative then -magnitude else magnitude;
        if INT32_MIN <= v <= INT32_MAX then Ok(v) else Failed
  }

  function PrintInt(v: Int32): string {
    var n: int := v;
    if n < 0 then "-" + Digits(-n) else Digits(n)
  }

  lemma IntRoundTrip(v: Int32)
    ensures ParseInt(PrintInt(v)) == Ok(v)
    ensures '.' !in PrintInt(v) && PrintInt(v) != ""
  {
    var m: int := v;
    var n := if m < 0 then -m else m;
    DigitsRoundTrip(n);
    TrimOfTrimmed(PrintInt(v), IsBlank);
    assert v < 0 ==> PrintInt(v)[1..] == Digits(n);
  }

  /** Blanks around a number make no difference. */
  lemma ParseIntIgnoresBlanks(before: string, text: string, after: string)
    requires AllAre(before, IsBlank) && AllAre(after, IsBlank) && TrimmedBy(text, IsBlank)
    ensures ParseInt(before + text + after) == ParseInt(text)
  {
    TrimOfPadded(before, text, after, IsBlank);
    TrimOfTrimmed(text, IsBlank);
  }

  /** What is accepted, and the value it has: digits and nothing else, within the range. */
  lemma ParseUnsigned(s: string)
    requires TrimmedBy(s, IsBlank) && (s != "" ==> s[0] != '+' && s[0] != '-')
    ensures ParseInt(s).Ok? <==> s != "" && AllDigits(s) && DigitsValue(s) <= INT32_MAX
    ensures ParseInt(s).Ok? ==> ParseInt(s).value == DigitsValue(s)
  {
    TrimOfTrimmed(s, IsBlank);
  }

  /** And the same after a sign. */
  lemma ParseSigned(s: string, digits: string)
    requires TrimmedBy(s, IsBlank) && s != "" && (s[0] == '+' || s[0] == '-') && digits == s[1..]
    ensures ParseInt(s).Ok? <==>
            digits != "" && AllDigits(digits) && DigitsValue(digits) <= if s[0] == '-' then -INT32_MIN else INT32_MAX
    ensures ParseInt(s).Ok? ==> ParseInt(s).value == if s[0] == '-' then -(DigitsValue(digits) as int) else DigitsValue(digits)
  {
    TrimOfTrimmed(s, IsBlank);
  }
}
