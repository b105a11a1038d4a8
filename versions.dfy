/**
 * The launcher's quick version parsing: the '.'-tokenizer, Java's decimal integer parsing,
 * the four version elements (major, minor, service, qualifier) and their comparison.
 */
module Versions {
  import opened Wrappers

  const IntMin: int := -0x8000_0000
  const IntMax: int := 0x7FFF_FFFF

  // ---------------------------------------------------------------------------------------
  // StringTokenizer with the delimiter "."

  /** The length of the leading run of characters other than '.'. */
  function RunLength(s: string): (n: nat)
    ensures n <= |s|
    ensures forall k :: 0 <= k < n ==> s[k] != '.'
    ensures n < |s| ==> s[n] == '.'
  {
    if s == [] || s[0] == '.' then 0 else 1 + RunLength(s[1..])
  }

  /** The tokens a StringTokenizer returns for delimiter ".": the maximal runs of other characters. */
  function Tokens(s: string): (tokens: seq<string>)
    decreases |s|
  {
    if s == [] then []
    else if s[0] == '.' then Tokens(s[1..])
    else
      var n := RunLength(s);
      [s[..n]] + Tokens(s[n..])
  }

  /** The characters of `s` other than '.'. */
  function WithoutDots(s: string): string {
    if s == [] then [] else (if s[0] == '.' then [] else [s[0]]) + WithoutDots(s[1..])
  }

  function Concat(tokens: seq<string>): string {
    if tokens == [] then [] else tokens[0] + Concat(tokens[1..])
  }

  /** Every token is non-empty and free of '.', and together they are the input without its dots. */
  lemma {:induction false} TokensPartition(s: string)
    ensures forall t :: t in Tokens(s) ==> t != [] && '.' !in t
    ensures Concat(Tokens(s)) == WithoutDots(s)
    decreases |s|
  {
    if s == [] {
    } else if s[0] == '.' {
      TokensPartition(s[1..]);
    } else {
      var n := RunLength(s);
      TokensPartition(s[n..]);
      RunWithoutDots(s, n);
      assert Tokens(s) == [s[..n]] + Tokens(s[n..]);
      assert Concat(Tokens(s)) == s[..n] + Concat(Tokens(s[n..]));
    }
  }

  /** A prefix free of dots is kept whole by WithoutDots. */
  lemma {:induction false} RunWithoutDots(s: string, n: nat)
    requires n <= |s| && forall k :: 0 <= k < n ==> s[k] != '.'
    ensures WithoutDots(s) == s[..n] + WithoutDots(s[n..])
  {
    if n > 0 {
      RunWithoutDots(s[1..], n - 1);
      assert s[1..][..n - 1] == s[1..n];
      assert s[1..][n - 1..] == s[n..];
      assert s[..n] == [s[0]] + s[1..n];
    }
  }

  // ---------------------------------------------------------------------------------------
  // Integer.parseInt in radix 10

  predicate IsDigit(c: char) {
    '0' <= c <= '9'
  }

  function DigitValue(c: char): nat
    requires IsDigit(c)
  {
    c as int - '0' as int
  }

  /** The value of a non-empty run of decimal digits, most significant first. */
  function DigitsValue(ds: string): nat
    requires forall k :: 0 <= k < |ds| ==> IsDigit(ds[k])
    decreases |ds|
  {
    if ds == [] then 0 else DigitsValue(ds[..|ds| - 1]) * 10 + DigitValue(ds[|ds| - 1])
  }

  /**
   * `new Integer(token)`: an optional sign and at least one digit, in the 32-bit range;
   * anything else is a NumberFormatException, modelled as None.
   */
  function ParseInt(s: string): (r: Option<int>)
    ensures r.Some? ==> IntMin <= r.value <= IntMax
    ensures s == [] ==> r.None?
  {
    if s == [] then None
    else
      var start := if s[0] == '-' || s[0] == '+' then 1 else 0;
      var digits := s[start..];
      if digits == [] || !(forall k :: 0 <= k < |digits| ==> IsDigit(digits[k])) then None
      else
        var magnitude := DigitsValue(digits);
        var n: int := if s[0] == '-' then 0 - magnitude as int else magnitude;
        if IntMin <= n <= IntMax then Some(n) else None
  }

  /** The decimal digits of a natural number, without leading zeros. */
  function DecimalString(n: nat): (s: string)
    ensures s != [] && forall k :: 0 <= k < |s| ==> IsDigit(s[k])
  {
    var last := [(('0' as int) + n % 10) as char];
    if n < 10 then last else DecimalString(n / 10) + last
  }

  lemma {:induction false} DecimalStringValue(n: nat)
    ensures DigitsValue(DecimalString(n)) == n
  {
    var s := DecimalString(n);
    assert s[..|s| - 1] == if n < 10 then [] else DecimalString(n / 10);
    if n >= 10 {
      DecimalStringValue(n / 10);
    }
  }

  /** Parsing the decimal string of a non-negative 32-bit value gives the value back. */
  lemma ParseDecimalString(n: nat)
    requires n <= IntMax
    ensures ParseInt(DecimalString(n)) == Some(n)
  {
    DecimalStringValue(n);
    assert DecimalString(n)[0..] == DecimalString(n);
  }

  /** Parsing a minus sign followed by a decimal string gives the negated value, down to the 32-bit minimum. */
  lemma ParseNegativeDecimalString(n: nat)
    requires n <= -IntMin
    ensures ParseInt("-" + DecimalString(n)) == Some(-(n as int))
  {
    DecimalStringValue(n);
    assert ("-" + DecimalString(n))[1..] == DecimalString(n);
  }

  // ---------------------------------------------------------------------------------------
  // getVersionElements

  /** The elements of a version: three numbers (-1 when absent) and a qualifier ("" when absent). */
  datatype VersionElements = VersionElements(major: int, minor: int, service: int, qualifier: string)

  const Defaults := VersionElements(-1, -1, -1, "")

  function OrUnset(n: Option<int>): int {
    if n.Some? then n.value else -1
  }

  /**
   * The reference reading of a version: no tokens give the defaults; a first token that is
   * not an integer gives None; each further numeric slot is read only while the previous ones
   * parsed, and the fourth token is the qualifier only when all three numbers parsed.
   */
  function VersionElementsOf(version: string): Option<VersionElements> {
    var t := Tokens(version);
    if |t| == 0 then Some(Defaults)
    else
      match ParseInt(t[0])
      case None => None
      case Some(major) =>
        var minor := if |t| > 1 then ParseInt(t[1]) else None;
        var service := if minor.Some? && |t| > 2 then ParseInt(t[2]) else None;
        var qualifier := if service.Some? && |t| > 3 then t[3] else "";
        Some(VersionElements(major, OrUnset(minor), OrUnset(service), qualifier))
  }

  /** The tokenizer loop of getVersionElements, filling the four slots in order. */
  method GetVersionElements(version: string) returns (r: Option<VersionElements>)
    ensures r == VersionElementsOf(version)
  {
    var numbers := [-1, -1, -1];
    var qualifier := "";
    var tokens := Tokens(version);
    var i := 0;
    while i < |tokens| && i < 4
      invariant 0 <= i <= 4 && i <= |tokens|
      invariant |numbers| == 3
      invariant i >= 1 ==> ParseInt(tokens[0]) == Some(numbers[0])
      invariant i >= 2 ==> ParseInt(tokens[1]) == Some(numbers[1])
      invariant i >= 3 ==> ParseInt(tokens[2]) == Some(numbers[2])
      invariant forall k :: i <= k < 3 ==> numbers[k] == -1
      invariant qualifier == if i == 4 then tokens[3] else ""
    {
      if i < 3 {
        var parsed := ParseInt(tokens[i]);
        if parsed.None? {
          if i == 0 {
            return None;
          }
          break;
        }
        numbers := numbers[i := parsed.value];
      } else {
        qualifier := tokens[i];
      }
      i := i + 1;
    }
    r := Some(VersionElements(numbers[0], numbers[1], numbers[2], qualifier));
  }

  /** The result is None exactly when the first token is not an integer. */
  lemma VersionNullIff(version: string)
    ensures VersionElementsOf(version).None? <==>
      |Tokens(version)| > 0 && ParseInt(Tokens(version)[0]).None?
  {
  }

  /** A version without tokens, the empty string among them, gives the defaults rather than None. */
  lemma EmptyVersion()
    ensures VersionElementsOf("") == Some(Defaults)
  {
  }

  /**
   * A slot beyond the tokens stays unset; a number slot holds its token while the tokens
   * parse, and from the first bad number on the remaining slots keep their defaults; the
   * qualifier is either "" or the fourth token.
   */
  lemma VersionSlots(version: string)
    requires VersionElementsOf(version).Some?
    ensures var v := VersionElementsOf(version).value; var t := Tokens(version);
      && (|t| <= 1 ==> v.minor == -1)
      && (|t| <= 2 ==> v.service == -1)
      && (v.qualifier == "" || (|t| >= 4 && v.qualifier == t[3]))
      && (|t| > 1 && ParseInt(t[1]).None? ==> v.minor == -1 && v.service == -1 && v.qualifier == "")
      && (|t| > 1 && ParseInt(t[1]).Some? ==> v.minor == ParseInt(t[1]).value)
      && (|t| > 2 && ParseInt(t[1]).Some? && ParseInt(t[2]).None? ==> v.service == -1 && v.qualifier == "")
      && (|t| > 2 && ParseInt(t[1]).Some? && ParseInt(t[2]).Some? ==> v.service == ParseInt(t[2]).value)
      && (|t| > 3 && ParseInt(t[1]).Some? && ParseInt(t[2]).Some? ==> v.qualifier == t[3])
  {
  }

  // ---------------------------------------------------------------------------------------
  // compareVersion

  /** Integer.compareTo. */
  function IntegerCompare(a: int, b: int): (c: int)
    ensures c < 0 <==> a < b
    ensures c == 0 <==> a == b
  {
    if a < b then -1 else if a == b then 0 else 1
  }

  /**
   * String.compareTo: the difference of the first differing characters, or of the lengths
   * when one string is a prefix of the other.
   */
  function StringCompare(a: string, b: string): int {
    if a == [] || b == [] then |a| - |b|
    else if a[0] != b[0] then a[0] as int - b[0] as int
    else StringCompare(a[1..], b[1..])
  }

  lemma {:induction false} StringCompareZero(a: string, b: string)
    ensures StringCompare(a, b) == 0 <==> a == b
  {
    if a != [] && b != [] && a[0] == b[0] {
      StringCompareZero(a[1..], b[1..]);
      assert a == [a[0]] + a[1..] && b == [b[0]] + b[1..];
    }
  }

  lemma {:induction false} StringCompareAntisymmetric(a: string, b: string)
    ensures StringCompare(a, b) == -StringCompare(b, a)
  {
    if a != [] && b != [] && a[0] == b[0] {
      StringCompareAntisymmetric(a[1..], b[1..]);
    }
  }

  lemma {:induction false} StringCompareTransitive(a: string, b: string, c: string)
    requires StringCompare(a, b) < 0 && StringCompare(b, c) < 0
    ensures StringCompare(a, c) < 0
  {
    if a != [] && b != [] && c != [] && a[0] == b[0] && b[0] == c[0] {
      StringCompareTransitive(a[1..], b[1..], c[1..]);
    }
  }

  /**
   * compareVersion: -1 whenever there is no left version; otherwise lexicographic on major,
   * minor, service and then the qualifier string.
   */
  function CompareVersion(left: Option<VersionElements>, right: VersionElements): (c: int)
    ensures left.None? ==> c == -1
  {
    if left.None? then -1
    else
      var l := left.value;
      if l.major != right.major then IntegerCompare(l.major, right.major)
      else if l.minor != right.minor then IntegerCompare(l.minor, right.minor)
      else if l.service != right.service then IntegerCompare(l.service, right.service)
      else StringCompare(l.qualifier, right.qualifier)
  }

  /** A version is smaller exactly when it is lexicographically smaller on its four elements. */
  lemma CompareVersionLexicographic(a: VersionElements, b: VersionElements)
    ensures CompareVersion(Some(a), b) < 0 <==>
      || a.major < b.major
      || (a.major == b.major && a.minor < b.minor)
      || (a.major == b.major && a.minor == b.minor && a.service < b.service)
      || (a.major == b.major && a.minor == b.minor && a.service == b.service
          && StringCompare(a.qualifier, b.qualifier) < 0)
  {
  }

  /** Comparing versions gives 0 exactly for equal versions, in particular for a version and itself. */
  lemma CompareVersionZero(a: VersionElements, b: VersionElements)
    ensures CompareVersion(Some(a), b) == 0 <==> a == b
  {
    StringCompareZero(a.qualifier, b.qualifier);
  }

  /** Swapping the operands flips the sign. */
  lemma CompareVersionAntisymmetric(a: VersionElements, b: VersionElements)
    ensures CompareVersion(Some(a), b) < 0 <==> CompareVersion(Some(b), a) > 0
  {
    StringCompareAntisymmetric(a.qualifier, b.qualifier);
  }

  lemma CompareVersionTransitive(a: VersionElements, b: VersionElements, c: VersionElements)
    requires CompareVersion(Some(a), b) < 0 && CompareVersion(Some(b), c) < 0
    ensures CompareVersion(Some(a), c) < 0
  {
    if a.major == b.major == c.major && a.minor == b.minor == c.minor && a.service == b.service == c.service {
      StringCompareTransitive(a.qualifier, b.qualifier, c.qualifier);
    }
  }

  /** The major element dominates: a smaller major makes the version smaller whatever follows. */
  lemma CompareVersionMajorFirst(a: VersionElements, b: VersionElements)
    requires a.major < b.major
    ensures CompareVersion(Some(a), b) < 0 && CompareVersion(Some(b), a) > 0
  {
  }
}
