/** Strings as `seq<char>`: decimal numerals the way Swift's integer initialisers read and print them,
    joining and splitting on a separator, and the `prefix:localName` split of qualified XML names. */
module Text {
  import opened Wrappers

  // ---------------------------------------------------------------- machine integers

  /** Swift's `Int` on the 64-bit platforms the toolkit targets. */
  const INT_MIN: int := -0x8000_0000_0000_0000
  const INT_MAX: int := 0x7FFF_FFFF_FFFF_FFFF

  type Int64 = x: int | INT_MIN <= x <= INT_MAX

  /** Swift's `%`: the remainder truncates toward zero, so it takes the sign of the dividend. */
  function TruncRem(a: int, b: int): (r: int)
    requires b != 0
    ensures a >= 0 ==> 0 <= r < if b > 0 then b else -b
    ensures a < 0 ==> -(if b > 0 then b else -b) < r <= 0
  {
    if a >= 0 then a % b else -((-a) % b)
  }

  // ---------------------------------------------------------------- decimal numerals

  predicate IsDigit(c: char) {
    '0' <= c <= '9'
  }

  predicate AllDigits(s: string) {
    forall i :: 0 <= i < |s| ==> IsDigit(s[i])
  }

  function DigitChar(d: nat): (c: char)
    requires d < 10
    ensures IsDigit(c)
  {
    ['0', '1', '2', '3', '4', '5', '6', '7', '8', '9'][d]
  }

  function DigitValue(c: char): (d: nat)
    requires IsDigit(c)
    ensures d < 10
  {
    (c as int - '0' as int) as nat
  }

  /** Digits read most significant first, as a natural number. */
  function DigitsValue(s: string): nat
    requires AllDigits(s)
  {
    if |s| == 0 then 0 else DigitsValue(s[..|s| - 1]) * 10 + DigitValue(s[|s| - 1])
  }

  /** The shortest decimal text of `n` (Swift's `"\(n)"` for a non-negative integer). */
  function NatToString(n: nat): (s: string)
    ensures |s| > 0 && AllDigits(s)
    ensures |s| > 1 ==> s[0] != '0'
  {
    if n < 10 then [DigitChar(n)] else NatToString(n / 10) + [DigitChar(n % 10)]
  }

  /** `"\(i)"` for a Swift integer: a minus sign for negative values, then the digits. */
  function IntToString(i: int): string {
    if i < 0 then "-" + NatToString(-i) else NatToString(i)
  }

  /** Swift's `Int(String)` read as an unbounded integer: an optional sign, then one or more decimal
      digits and nothing else; the fixed-width range check is a separate step. */
  function ParseInteger(s: string): (r: Option<int>)
    ensures r.Some? ==> |s| > 0
    ensures s == "" ==> r.None?
  {
    if |s| > 0 && (s[0] == '-' || s[0] == '+') then
      var rest := s[1..];
      if |rest| > 0 && AllDigits(rest) then
        Some(if s[0] == '-' then -(DigitsValue(rest) as int) else DigitsValue(rest) as int)
      else None
    else if |s| > 0 && AllDigits(s) then Some(DigitsValue(s) as int)
    else None
  }

  lemma {:induction false} DigitCharValue(d: nat)
    requires d < 10
    ensures DigitValue(DigitChar(d)) == d
  {
    var digits := ['0', '1', '2', '3', '4', '5', '6', '7', '8', '9'];
    assert DigitChar(d) == digits[d];
  }

  /** Reading back digits printed by `NatToString` gives the number printed. */
  lemma {:induction false} NatRoundTrip(n: nat)
    ensures DigitsValue(NatToString(n)) == n
  {
    if n < 10 {
      DigitCharValue(n);
    } else {
      var s := NatToString(n);
      NatRoundTrip(n / 10);
      DigitCharValue(n % 10);
      assert s[..|s| - 1] == NatToString(n / 10);
    }
  }

  /** Every integer printed in decimal parses back to itself. */
  lemma {:induction false} IntRoundTrip(i: int)
    ensures ParseInteger(IntToString(i)) == Some(i)
  {
    if i < 0 {
      NegativeRoundTrip(i);
    } else {
      NonNegativeRoundTrip(i);
    }
  }

  lemma {:induction false} NegativeRoundTrip(i: int)
    requires i < 0
    ensures ParseInteger(IntToString(i)) == Some(i)
  {
    var n: nat := -i;
    var digits := NatToString(n);
    NatRoundTrip(n);
    var s := "-" + digits;
    assert IntToString(i) == s;
    assert s[0] == '-' && s[1..] == digits;
  }

  lemma {:induction false} NonNegativeRoundTrip(i: int)
    requires i >= 0
    ensures ParseInteger(IntToString(i)) == Some(i)
  {
    var s := NatToString(i);
    NatRoundTrip(i);
    assert IntToString(i) == s;
    assert IsDigit(s[0]);
  }

  // ---------------------------------------------------------------- joining and splitting

  /** `[String].joined(separator:)`. */
  function Join(parts: seq<string>, sep: string): (r: string)
    ensures |parts| == 0 ==> r == ""
    ensures |parts| == 1 ==> r == parts[0]
  {
    if |parts| == 0 then ""
    else if |parts| == 1 then parts[0]
    else parts[0] + sep + Join(parts[1..], sep)
  }

  /** Joining one more part puts exactly one separator before it. */
  lemma {:induction false} JoinSnoc(parts: seq<string>, last: string, sep: string)
    requires |parts| > 0
    ensures Join(parts + [last], sep) == Join(parts, sep) + sep + last
  {
    var all := parts + [last];
    if |parts| == 1 {
      assert all[1..] == [last];
    } else {
      assert all[1..] == parts[1..] + [last];
      JoinSnoc(parts[1..], last, sep);
    }
  }

  /** `String.components(separatedBy:)` with a one-character separator: the maximal runs between
      separators, so the empty string gives one empty component. */
  function Split(s: string, sep: char): (r: seq<string>)
    ensures |r| > 0
    ensures forall k :: 0 <= k < |r| ==> sep !in r[k]
  {
    if sep !in s then [s]
    else
      var i := IndexOf(s, sep);
      [s[..i]] + Split(s[i + 1..], sep)
  }

  /** Index of the first occurrence of `c` in `s`. */
  function IndexOf(s: string, c: char): (i: nat)
    requires c in s
    ensures i < |s| && s[i] == c && c !in s[..i]
  {
    if s[0] == c then 0 else 1 + IndexOf(s[1..], c)
  }

  /** Splitting the join of separator-free parts gives back the parts. */
  lemma {:induction false} SplitJoin(parts: seq<string>, sep: char)
    requires |parts| > 0
    requires forall k :: 0 <= k < |parts| ==> sep !in parts[k]
    ensures Split(Join(parts, [sep]), sep) == parts
  {
    if |parts| == 1 {
    } else {
      var s := Join(parts, [sep]);
      var tail := Join(parts[1..], [sep]);
      assert s == parts[0] + [sep] + tail;
      assert sep in s by { assert s[|parts[0]|] == sep; }
      var i := IndexOf(s, sep);
      assert i == |parts[0]| by {
        assert s[..|parts[0]|] == parts[0];
      }
      assert s[..i] == parts[0];
      assert s[i + 1..] == tail;
      SplitJoin(parts[1..], sep);
    }
  }

  // ---------------------------------------------------------------- qualified names

  /** The part of a qualified name before its first ':', or "" when it has none. */
  function PrefixOf(name: string): (p: string)
    ensures ':' !in p
    ensures ':' !in name ==> p == ""
  {
    if ':' in name then name[..IndexOf(name, ':')] else ""
  }

  /** The part of a qualified name after its first ':', or the whole name when it has none. */
  function LocalPartOf(name: string): (l: string)
    ensures ':' !in name ==> l == name
  {
    if ':' in name then name[IndexOf(name, ':') + 1..] else name
  }

  /** "prefix:localName", or the bare local name when the prefix is empty. */
  function QualifiedText(prefix: string, localName: string): string {
    if prefix == "" then localName else prefix + ":" + localName
  }

  /** A colon-free non-empty prefix and its local name are read back from the qualified text. */
  lemma QualifiedTextSplits(prefix: string, localName: string)
    requires ':' !in prefix && prefix != ""
    ensures PrefixOf(QualifiedText(prefix, localName)) == prefix
    ensures LocalPartOf(QualifiedText(prefix, localName)) == localName
  {
    var s := prefix + ":" + localName;
    assert s[|prefix|] == ':';
    var i := IndexOf(s, ':');
    assert i == |prefix| by {
      assert s[..|prefix|] == prefix;
    }
    assert s[..i] == prefix;
    assert s[i + 1..] == localName;
  }
}
