/** String helpers that the download filename rule relies on: JavaScript's
    `String.prototype.replace` with a one-character string pattern (first
    occurrence only), `toLowerCase` restricted to ASCII letters, and the
    decimal rendering of an integer inside a template literal. */
module Text {
  import opened Common

  /** Number of occurrences of `c` in `s`. */
  function Count(s: string, c: char): (n: nat)
    ensures n <= |s|
    ensures n == 0 <==> c !in s
  {
    if s == [] then 0 else (if s[0] == c then 1 else 0) + Count(s[1..], c)
  }

  /** Index of the first occurrence of `c` in `s`, if any. */
  function IndexOf(s: string, c: char): (r: Option<nat>)
    ensures r.None? <==> c !in s
    ensures r.Some? ==> r.value < |s| && s[r.value] == c && c !in s[..r.value]
  {
    if s == [] then None
    else if s[0] == c then Some(0)
    else match IndexOf(s[1..], c)
      case None => None
      case Some(i) => assert s[1..][..i] == s[1..i + 1]; Some(i + 1)
  }

  /** Occurrences in a concatenation add up. */
  lemma {:induction false} CountConcat(a: string, b: string, c: char)
    ensures Count(a + b, c) == Count(a, c) + Count(b, c)
  {
    if a == [] {
      assert a + b == b;
    } else {
      CountConcat(a[1..], b, c);
      assert (a + b)[0] == a[0];
      assert (a + b)[1..] == a[1..] + b;
    }
  }

  /** Two space-free words joined by one space hold exactly one space. */
  lemma OneSpace(a: string, b: string)
    requires ' ' !in a && ' ' !in b
    ensures Count(a + " " + b, ' ') == 1
  {
    CountConcat(a + " ", b, ' ');
    CountConcat(a, " ", ' ');
  }

  /** `s.replace(from, to)` for single-character strings: only the first
      occurrence of `from` is replaced. */
  function ReplaceFirst(s: string, from: char, to: char): (r: string)
    ensures |r| == |s|
  {
    if s == [] then []
    else if s[0] == from then [to] + s[1..]
    else [s[0]] + ReplaceFirst(s[1..], from, to)
  }

  /** ReplaceFirst changes the character at the first occurrence of `from`
      and nothing else; without an occurrence it changes nothing. */
  lemma {:induction false} ReplaceFirstSpec(s: string, from: char, to: char)
    ensures from !in s ==> ReplaceFirst(s, from, to) == s
    ensures from in s ==>
      var i := IndexOf(s, from).value;
      ReplaceFirst(s, from, to) == s[..i] + [to] + s[i + 1..]
  {
    if from in s {
      ReplaceFirstAt(s, from, to, IndexOf(s, from).value);
    } else {
      ReplaceFirstAbsent(s, from, to);
    }
  }

  lemma {:induction false} ReplaceFirstAbsent(s: string, from: char, to: char)
    requires from !in s
    ensures ReplaceFirst(s, from, to) == s
  {
    if s != [] {
      assert s[0] != from && from !in s[1..];
      ReplaceFirstAbsent(s[1..], from, to);
      assert s == [s[0]] + s[1..];
    }
  }

  lemma {:induction false} ReplaceFirstAt(s: string, from: char, to: char, i: nat)
    requires i < |s| && s[i] == from && from !in s[..i]
    ensures ReplaceFirst(s, from, to) == s[..i] + [to] + s[i + 1..]
  {
    if i == 0 {
      assert s[0] == from;
      assert s[..0] + [to] + s[1..] == [to] + s[1..];
    } else {
      var t := s[1..];
      assert s[0] != from by { assert s[0] == s[..i][0]; }
      assert t[..i - 1] == s[1..i];
      ReplaceFirstAt(t, from, to, i - 1);
      var r := ReplaceFirst(t, from, to);
      assert r == t[..i - 1] + [to] + t[i..];
      assert ReplaceFirst(s, from, to) == [s[0]] + r;
      assert t[i..] == s[i + 1..];
      assert [s[0]] + t[..i - 1] == s[..i];
      assert [s[0]] + (t[..i - 1] + [to] + t[i..]) == ([s[0]] + t[..i - 1]) + [to] + t[i..];
    }
  }

  /** Replacing the first occurrence removes exactly one occurrence of
      `from` (when there is one) and adds one of `to`. */
  lemma {:induction false} ReplaceFirstCount(s: string, from: char, to: char)
    requires from != to
    ensures Count(ReplaceFirst(s, from, to), from) == if from in s then Count(s, from) - 1 else 0
    ensures Count(ReplaceFirst(s, from, to), to) == Count(s, to) + if from in s then 1 else 0
  {
    if s == [] {
    } else if s[0] == from {
      assert ([to] + s[1..])[1..] == s[1..];
      assert from !in s[1..] ==> Count(s[1..], from) == 0;
    } else {
      ReplaceFirstCount(s[1..], from, to);
      assert ([s[0]] + ReplaceFirst(s[1..], from, to))[1..] == ReplaceFirst(s[1..], from, to);
      assert from in s <==> from in s[1..];
    }
  }

  /** In two words joined by a space, replacing the first space joins them
      with `to` instead, whatever the second word holds. */
  lemma ReplaceJoin(a: string, b: string, to: char)
    requires ' ' !in a
    ensures ReplaceFirst(a + " " + b, ' ', to) == a + [to] + b
  {
    var s := a + " " + b;
    assert s[..|a|] == a && s[|a|] == ' ' && s[|a| + 1..] == b;
    ReplaceFirstAt(s, ' ', to, |a|);
  }

  /** `toLowerCase` on one character, for the ASCII letters. */
  function LowerChar(c: char): (d: char)
    ensures !('A' <= d <= 'Z')
    ensures 'A' <= c <= 'Z' ==> 'a' <= d <= 'z' && d as int - 'a' as int == c as int - 'A' as int
    ensures !('A' <= c <= 'Z') ==> d == c
  {
    if 'A' <= c <= 'Z' then (c as int - 'A' as int + 'a' as int) as char else c
  }

  /** `toLowerCase` on a string: every character lowered, in place. */
  function Lower(s: string): (r: string)
    ensures |r| == |s|
    ensures forall i :: 0 <= i < |s| ==> r[i] == LowerChar(s[i])
  {
    seq(|s|, i requires 0 <= i < |s| => LowerChar(s[i]))
  }

  /** Lowering leaves the first space where it was. */
  lemma {:induction false} LowerIndexOfSpace(s: string)
    ensures IndexOf(Lower(s), ' ') == IndexOf(s, ' ')
  {
    if s != [] {
      LowerIndexOfSpace(s[1..]);
      assert Lower(s)[1..] == Lower(s[1..]);
    }
  }

  /** Lowering leaves a space where it was and creates none. */
  lemma LowerKeepsSpaces(s: string)
    ensures Count(Lower(s), ' ') == Count(s, ' ')
  {
    LowerCount(s, ' ');
  }

  lemma {:induction false} LowerCount(s: string, c: char)
    requires !('A' <= c <= 'Z') && !('a' <= c <= 'z')
    ensures Count(Lower(s), c) == Count(s, c)
  {
    if s != [] {
      LowerCount(s[1..], c);
      assert Lower(s)[1..] == Lower(s[1..]);
    }
  }

  predicate IsDigit(c: char) { '0' <= c <= '9' }

  function DigitChar(d: nat): (c: char)
    requires d < 10
    ensures IsDigit(c)
  {
    ('0' as int + d) as char
  }

  function DigitValue(c: char): (d: nat)
    requires IsDigit(c)
    ensures d < 10 && DigitChar(d) == c
  {
    c as int - '0' as int
  }

  /** Decimal digits of a natural number, without leading zeros. */
  function NatToString(n: nat): (s: string)
    ensures |s| > 0
    ensures forall i :: 0 <= i < |s| ==> IsDigit(s[i])
    decreases n
  {
    if n < 10 then [DigitChar(n)] else NatToString(n / 10) + [DigitChar(n % 10)]
  }

  /** How a number is rendered inside a JavaScript template literal
      (integers only): an optional minus sign and the decimal digits. */
  function IntToString(n: int): (s: string)
    ensures |s| > 0
    ensures 'x' !in s && ' ' !in s
  {
    if n < 0 then "-" + NatToString(-n) else NatToString(n)
  }

  /** Value of a string of decimal digits (the empty string reads as 0). */
  function ParseNat(s: string): (n: nat)
    requires forall i :: 0 <= i < |s| ==> IsDigit(s[i])
  {
    if s == [] then 0 else 10 * ParseNat(s[..|s| - 1]) + DigitValue(s[|s| - 1])
  }

  predicate AllDigits(s: string) {
    forall i :: 0 <= i < |s| ==> IsDigit(s[i])
  }

  /** Reads back what IntToString writes; None for anything else. */
  function ParseInt(s: string): (r: Option<int>)
  {
    if |s| > 0 && s[0] == '-' then
      (if |s| > 1 && AllDigits(s[1..]) then Some(0 - ParseNat(s[1..]) as int) else None)
    else if |s| > 0 && AllDigits(s) then Some(ParseNat(s))
    else None
  }

  lemma {:induction false} ParseNatToString(n: nat)
    ensures ParseNat(NatToString(n)) == n
    decreases n
  {
    if n >= 10 {
      var s := NatToString(n);
      ParseNatToString(n / 10);
      assert s[..|s| - 1] == NatToString(n / 10);
    }
  }

  /** Rendering an integer and reading it back gives the same integer. */
  lemma IntToStringRoundTrip(n: int)
    ensures ParseInt(IntToString(n)) == Some(n)
  {
    if n < 0 {
      NegativeRoundTrip(n);
    } else {
      NonNegativeRoundTrip(n);
    }
  }

  lemma NegativeRoundTrip(n: int)
    requires n < 0
    ensures ParseInt(IntToString(n)) == Some(n)
  {
    var digits := NatToString(-n);
    var s := "-" + digits;
    assert IntToString(n) == s;
    assert s[0] == '-' && |s| > 1 && s[1..] == digits;
    ParseNatToString(-n);
  }

  lemma NonNegativeRoundTrip(n: int)
    requires n >= 0
    ensures ParseInt(IntToString(n)) == Some(n)
  {
    var s := NatToString(n);
    assert IntToString(n) == s;
    assert IsDigit(s[0]) && s[0] != '-';
    ParseNatToString(n);
  }
}
