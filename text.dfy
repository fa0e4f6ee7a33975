/**
 * The string operations the application leans on: `Number.prototype.toString` for integers,
 * `padStart`, ASCII `toUpperCase`, `startsWith`, `split(' ')` and the `||` fallback on strings.
 */
module Text {

  predicate IsDigit(c: char) {
    '0' <= c <= '9'
  }

  function DigitChar(d: nat): (c: char)
    requires d < 10
    ensures IsDigit(c) && c as int - '0' as int == d
  {
    ('0' as int + d) as char
  }

  /** The value of a decimal digit character. */
  function DigitValue(c: char): int {
    c as int - '0' as int
  }

  /** Decimal rendering of a natural number, with no leading zero. */
  function NatToString(n: nat): (r: string)
    ensures 1 <= |r|
    ensures forall i :: 0 <= i < |r| ==> IsDigit(r[i])
    ensures |r| == 1 <==> n < 10
    ensures n < 100 ==> |r| <= 2
    ensures n >= 100 ==> |r| >= 3
    ensures ':' !in r && ' ' !in r
  {
    if n < 10 then [DigitChar(n)] else NatToString(n / 10) + [DigitChar(n % 10)]
  }

  /** `String(i)` for an integer JavaScript number: a minus sign, then the digits of `|i|`. */
  function IntToString(i: int): (r: string)
    ensures i >= 0 ==> r == NatToString(i)
    ensures i < 0 ==> r == "-" + NatToString(-i)
  {
    if i < 0 then "-" + NatToString(-i) else NatToString(i)
  }

  /** The value of a string of decimal digits, read left to right; meaningful only on digits. */
  function DigitsValue(s: string): int {
    if s == [] then 0 else DigitsValue(s[..|s| - 1]) * 10 + DigitValue(s[|s| - 1])
  }

  /** Reading back what `NatToString` wrote gives the number. */
  lemma {:induction false} DigitsValueOfNatToString(n: nat)
    ensures DigitsValue(NatToString(n)) == n
  {
    if n >= 10 {
      var s := NatToString(n);
      assert s[..|s| - 1] == NatToString(n / 10);
      DigitsValueOfNatToString(n / 10);
    }
  }

  /** `s.padStart(2, '0')`, used for every clock field the dashboard shows: left-pads to two
      characters with '0' and never truncates. */
  function Pad2(s: string): (r: string)
    ensures |r| == if |s| >= 2 then |s| else 2
    ensures r[|r| - |s|..] == s
    ensures forall i :: 0 <= i < |r| - |s| ==> r[i] == '0'
  {
    if |s| >= 2 then s else if |s| == 1 then ['0'] + s else "00"
  }

  /** Two-digit rendering of a natural number, as the clocks show it. */
  lemma Pad2Digits(n: nat)
    ensures var r := Pad2(NatToString(n));
      && (forall i :: 0 <= i < |r| ==> IsDigit(r[i]))
      && ':' !in r
      && DigitsValue(r) == n
      && (n < 100 ==> |r| == 2)
  {
    var s := NatToString(n);
    var r := Pad2(s);
    DigitsValueOfNatToString(n);
    if |s| == 1 {
      assert r == ['0'] + s;
      assert r[..1] == "0";
    } else {
      assert r == s;
    }
  }

  /** ASCII upper-casing of one character; other characters are left alone. */
  function UpperChar(c: char): (r: char)
    ensures 'a' <= c <= 'z' ==> r as int == c as int - 32
    ensures !('a' <= c <= 'z') ==> r == c
  {
    if 'a' <= c <= 'z' then (c as int - 32) as char else c
  }

  function Upper(s: string): (r: string)
    ensures |r| == |s|
    ensures forall i :: 0 <= i < |s| ==> r[i] == UpperChar(s[i])
  {
    if s == [] then [] else [UpperChar(s[0])] + Upper(s[1..])
  }

  /** `s.startsWith(prefix)`. */
  predicate StartsWith(s: string, prefix: string) {
    |prefix| <= |s| && s[..|prefix|] == prefix
  }

  /** If two prefixes of one string both match, one is a prefix of the other. */
  lemma PrefixesNest(s: string, p: string, q: string)
    requires StartsWith(s, p) && StartsWith(s, q) && |p| <= |q|
    ensures StartsWith(q, p)
  {
    assert q[..|p|] == s[..|q|][..|p|];
  }

  /** `s || fallback` on a string: the empty string is falsy. */
  function OrElse(s: string, fallback: string): (r: string)
    ensures s != "" ==> r == s
    ensures s == "" ==> r == fallback
  {
    if s == "" then fallback else s
  }

  /** `s.split(' ')`: the maximal space-free pieces, empty ones included. */
  function Split(s: string): (r: seq<string>)
    ensures |r| >= 1
    ensures forall k :: 0 <= k < |r| ==> ' ' !in r[k]
    ensures |r[0]| <= |s| && s[..|r[0]|] == r[0]
    ensures |r| > 1 ==> |r[0]| < |s| && s[|r[0]|] == ' '
    ensures |r| == 1 <==> ' ' !in s
    ensures |r| == 1 ==> r[0] == s
  {
    if s == [] then [[]]
    else
      var rest := Split(s[1..]);
      if s[0] == ' ' then [[]] + rest
      else [[s[0]] + rest[0]] + rest[1..]
  }

  /** The last part is a suffix of the string, preceded by a space when there are several. */
  lemma {:induction false} SplitLast(s: string)
    ensures var r := Split(s);
      var last := r[|r| - 1];
      && |last| <= |s| && s[|s| - |last|..] == last
      && (|r| > 1 ==> |last| < |s| && s[|s| - |last| - 1] == ' ')
  {
    if s != [] {
      var rest := Split(s[1..]);
      SplitLastPart(s);
      if s[0] == ' ' || |rest| > 1 {
        SplitLast(s[1..]);
        SuffixOfTail(s, rest[|rest| - 1]);
      } else {
        assert s[|s| - |s|..] == s;
      }
    }
  }

  /** Away from a single part, the last part of `s` is the last part of its tail. */
  lemma SplitLastPart(s: string)
    requires s != []
    ensures var r, rest := Split(s), Split(s[1..]);
      (s[0] == ' ' || |rest| > 1) ==> |r| > 1 && r[|r| - 1] == rest[|rest| - 1]
    ensures var rest := Split(s[1..]);
      s[0] != ' ' && |rest| == 1 ==> Split(s) == [s]
  {
  }

  lemma SuffixOfTail(s: string, last: string)
    requires s != [] && |last| <= |s| - 1 && s[1..][|s| - 1 - |last|..] == last
    ensures s[|s| - |last|..] == last
    ensures |last| < |s| - 1 && s[1..][|s| - 1 - |last| - 1] == ' ' ==> s[|s| - |last| - 1] == ' '
  {
    assert s[1..][|s| - 1 - |last|..] == s[|s| - |last|..];
  }

  /** A leading non-space character joins the first part. */
  lemma SplitCons(c: char, s: string)
    requires c != ' '
    ensures Split([c] + s) == [[c] + Split(s)[0]] + Split(s)[1..]
  {
    assert ([c] + s)[1..] == s;
  }
}
