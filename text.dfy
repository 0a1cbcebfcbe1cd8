/**
 * The Java string operations the services rely on: decimal rendering of a `long`
 * (string concatenation and `%d`), `%.1f` with its HALF_UP rounding, and
 * `String.split("::")` with Java's removal of trailing empty pieces.
 */
module Text {
  import opened Common

  function DigitChar(d: nat): (c: char)
    requires d < 10
    ensures '0' <= c <= '9'
  {
    (48 + d) as char
  }

  /** Decimal digits of a natural number, most significant first, without leading zeros. */
  function NatToString(n: nat): (s: string)
    ensures 1 <= |s|
    ensures n < 10 <==> |s| == 1
    ensures forall i :: 0 <= i < |s| ==> '0' <= s[i] <= '9'
  {
    if n < 10 then [DigitChar(n)] else NatToString(n / 10) + [DigitChar(n % 10)]
  }

  /** The value of a decimal digit character. */
  function DigitValue(c: char): int
  {
    c as int - 48
  }

  /** The number a string of decimal digits denotes, most significant first (the parsing direction). */
  function DigitsValue(s: string): int
  {
    if s == [] then 0 else DigitsValue(s[..|s| - 1]) * 10 + DigitValue(s[|s| - 1])
  }

  /** Reading back the rendering of `n` gives `n`. */
  lemma {:induction false} NatToStringValue(n: nat)
    ensures DigitsValue(NatToString(n)) == n
  {
    var s := NatToString(n);
    if n >= 10 {
      assert s[..|s| - 1] == NatToString(n / 10);
      NatToStringValue(n / 10);
    } else {
      assert s[..|s| - 1] == [];
    }
  }

  /** Decimal rendering of a Java `long`: an optional minus sign, then the digits of |i|. */
  function IntToString(i: int): (s: string)
    ensures i < 0 <==> (|s| > 0 && s[0] == '-')
    ensures var sign := if i < 0 then 1 else 0;
            && |s| > sign
            && (forall k :: sign <= k < |s| ==> '0' <= s[k] <= '9')
            && DigitsValue(s[sign..]) == (if i < 0 then -i else i)
  {
    if i < 0 then
      var d := NatToString(-i);
      NatToStringValue(-i);
      assert ("-" + d)[1..] == d;
      "-" + d
    else
      NatToStringValue(i);
      assert NatToString(i)[0..] == NatToString(i);
      NatToString(i)
  }

  /** Different numbers never render alike, so rendered numbers can serve as map keys. */
  lemma NatToStringInjective(a: nat, b: nat)
    requires NatToString(a) == NatToString(b)
    ensures a == b
  {
    NatToStringValue(a);
    NatToStringValue(b);
  }

  /**
   * `String.format("%.1f", x)`: an optional minus sign, the integer digits, a point and one
   * decimal digit, which together spell |x| rounded HALF_UP to tenths.
   */
  function FormatOneDecimal(x: real): (s: string)
    ensures |s| >= 3 && s[|s| - 2] == '.'
    ensures x < 0.0 <==> s[0] == '-'
    ensures var sign := if x < 0.0 then 1 else 0;
            && |s| >= sign + 3
            && (forall k :: sign <= k < |s| && k != |s| - 2 ==> '0' <= s[k] <= '9')
            && DigitsValue(s[sign..|s| - 2]) * 10 + DigitValue(s[|s| - 1])
               == Round((if x < 0.0 then -x else x) * 10.0)
  {
    var tenths := Round((if x < 0.0 then -x else x) * 10.0);
    assert tenths >= 0;
    SignedTenths(if x < 0.0 then "-" else "", tenths)
  }

  /** A sign, then a count of tenths spelt as its integer digits, a point and its last digit. */
  function SignedTenths(sign: string, tenths: nat): (s: string)
    ensures |s| >= |sign| + 3 && s[..|sign|] == sign && s[|s| - 2] == '.'
    ensures forall k :: |sign| <= k < |s| && k != |s| - 2 ==> '0' <= s[k] <= '9'
    ensures DigitsValue(s[|sign|..|s| - 2]) * 10 + DigitValue(s[|s| - 1]) == tenths
  {
    var whole := NatToString(tenths / 10);
    var s := (sign + whole) + ['.', DigitChar(tenths % 10)];
    NatToStringValue(tenths / 10);
    assert s[..|sign| + |whole|] == sign + whole;
    assert s[|sign|..|s| - 2] == whole;
    assert forall k :: |sign| <= k < |s| - 2 ==> s[k] == whole[k - |sign|];
    assert DigitValue(s[|s| - 1]) == tenths % 10;
    s
  }

  /** The pieces between successive non-overlapping occurrences of "::", scanned left to right. */
  function SplitPieces(s: string): (parts: seq<string>)
    ensures |parts| >= 1
    decreases |s|
  {
    if |s| < 2 then [s]
    else if s[0] == ':' && s[1] == ':' then [""] + SplitPieces(s[2..])
    else
      var rest := SplitPieces(s[1..]);
      [[s[0]] + rest[0]] + rest[1..]
  }

  predicate HasSeparator(s: string)
  {
    exists i :: 0 <= i < |s| - 1 && s[i] == ':' && s[i + 1] == ':'
  }

  function DropTrailingEmpty(parts: seq<string>): (r: seq<string>)
    ensures |r| <= |parts| && r == parts[..|r|]
    ensures r != [] ==> r[|r| - 1] != ""
  {
    if parts == [] then []
    else if parts[|parts| - 1] == "" then DropTrailingEmpty(parts[..|parts| - 1])
    else parts
  }

  /**
   * `s.split("::")`: a string without the separator is returned whole (even when empty);
   * otherwise the pieces, with trailing empty pieces removed.
   */
  function JavaSplit(s: string): seq<string>
  {
    if !HasSeparator(s) then [s] else DropTrailingEmpty(SplitPieces(s))
  }

  lemma {:induction false} SplitWithoutColon(s: string)
    requires ':' !in s
    ensures SplitPieces(s) == [s]
    decreases |s|
  {
    if |s| >= 2 {
      assert s[1..][..] == s[1..];
      SplitWithoutColon(s[1..]);
      assert [s[0]] + s[1..] == s;
    }
  }

  lemma {:induction false} SplitPair(m: string, l: string)
    requires ':' !in m && ':' !in l
    ensures SplitPieces(m + "::" + l) == [m, l]
    decreases |m|
  {
    if m == [] {
      assert m + "::" + l == "::" + l;
      assert ("::" + l)[2..] == l;
      SplitWithoutColon(l);
    } else {
      var s := m + "::" + l;
      assert s[0] == m[0];
      assert s[1..] == m[1..] + "::" + l;
      SplitPair(m[1..], l);
      assert [m[0]] + m[1..] == m;
    }
  }

  /** "machine::line" with colon-free, non-empty parts splits back into the two parts. */
  lemma SplitJoined(m: string, l: string)
    requires ':' !in m && ':' !in l && l != ""
    ensures JavaSplit(m + "::" + l) == [m, l]
  {
    var s := m + "::" + l;
    assert s[|m|] == ':' && s[|m| + 1] == ':';
    SplitPair(m, l);
  }

  /** A string without "::" comes back whole, as Java's no-match case returns it. */
  lemma SplitNoSeparator(s: string)
    requires !HasSeparator(s)
    ensures JavaSplit(s) == [s]
  {
  }
}
