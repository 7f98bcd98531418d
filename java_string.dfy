/** The few pieces of java.lang.String and java.lang.Integer the core relies on,
    stated over `seq<char>`. Case mapping is ASCII only; see README. */
module JavaString {
  import opened Wrappers

  /** Java's 32-bit `int`. */
  newtype int32 = x: int | -0x8000_0000 <= x < 0x8000_0000

  // ---------------------------------------------------------------------------
  // String.trim
  // ---------------------------------------------------------------------------

  /** `String.trim` removes every leading and trailing char whose code is at most U+0020. */
  predicate IsTrimmable(c: char) {
    c <= ' '
  }

  predicate AllTrimmable(s: string) {
    forall i | 0 <= i < |s| :: IsTrimmable(s[i])
  }

  function TrimStart(s: string): (r: string)
    ensures |r| <= |s|
    ensures r != [] ==> !IsTrimmable(r[0]) && r[|r| - 1] == s[|s| - 1]
    ensures r == [] <==> AllTrimmable(s)
  {
    if s != [] && IsTrimmable(s[0]) then TrimStart(s[1..]) else s
  }

  function TrimEnd(s: string): (r: string)
    ensures |r| <= |s|
    ensures r != [] ==> !IsTrimmable(r[|r| - 1]) && r[0] == s[0]
    ensures r == [] <==> AllTrimmable(s)
  {
    if s != [] && IsTrimmable(s[|s| - 1]) then TrimEnd(s[..|s| - 1]) else s
  }

  /** Java `s.trim()`. */
  function Trim(s: string): (r: string)
    ensures |r| <= |s|
    ensures r != [] ==> !IsTrimmable(r[0]) && !IsTrimmable(r[|r| - 1])
    ensures r == [] <==> AllTrimmable(s)
  {
    TrimEnd(TrimStart(s))
  }

  /** TrimStart drops a run of trimmable chars from the front and keeps the rest. */
  lemma {:induction false} TrimStartSuffix(s: string) returns (i: nat)
    ensures i <= |s| && TrimStart(s) == s[i..] && AllTrimmable(s[..i])
    decreases |s|
  {
    if s != [] && IsTrimmable(s[0]) {
      var i' := TrimStartSuffix(s[1..]);
      i := i' + 1;
      assert s[1..][i'..] == s[i..];
      forall k | 0 <= k < i ensures IsTrimmable(s[k]) {
        if k > 0 {
          assert s[k] == s[1..][..i'][k - 1];
        }
      }
    } else {
      i := 0;
    }
  }

  /** TrimEnd drops a run of trimmable chars from the back and keeps the rest. */
  lemma {:induction false} TrimEndPrefix(s: string) returns (j: nat)
    ensures j <= |s| && TrimEnd(s) == s[..j] && AllTrimmable(s[j..])
    decreases |s|
  {
    if s != [] && IsTrimmable(s[|s| - 1]) {
      var f := s[..|s| - 1];
      j := TrimEndPrefix(f);
      assert f[..j] == s[..j];
      forall k | j <= k < |s| ensures IsTrimmable(s[k]) {
        if k < |f| {
          assert s[k] == f[j..][k - j];
        }
      }
    } else {
      j := |s|;
    }
  }

  /** What trim keeps is a contiguous piece of the input, and everything it drops before and
      after that piece is trimmable. With Trim's own ensures (the piece starts and ends with
      a non-trimmable char) this pins the result down. */
  lemma TrimInfix(s: string)
    ensures exists i, j | 0 <= i <= j <= |s| :: Trim(s) == s[i..j] && AllTrimmable(s[..i]) && AllTrimmable(s[j..])
  {
    var i := TrimStartSuffix(s);
    var t := s[i..];
    var k := TrimEndPrefix(t);
    assert t[..k] == s[i..i + k] && t[k..] == s[i + k..];
    assert Trim(s) == s[i..i + k] && AllTrimmable(s[..i]) && AllTrimmable(s[i + k..]);
  }

  lemma TrimKeeps(s: string)
    requires s != [] && !IsTrimmable(s[0]) && !IsTrimmable(s[|s| - 1])
    ensures Trim(s) == s
  {
  }

  lemma TrimIdempotent(s: string)
    ensures Trim(Trim(s)) == Trim(s)
  {
    if Trim(s) != [] {
      TrimKeeps(Trim(s));
    }
  }

  // ---------------------------------------------------------------------------
  // Case: toLowerCase(Locale.ROOT) and equalsIgnoreCase, ASCII letters only
  // ---------------------------------------------------------------------------

  function ToLowerChar(c: char): (r: char)
    ensures 'A' <= c <= 'Z' ==> r as int == c as int + 32
    ensures !('A' <= c <= 'Z') ==> r == c
  {
    if 'A' <= c <= 'Z' then (c as int + 32) as char else c
  }

  function ToLower(s: string): (r: string)
    ensures |r| == |s|
    ensures forall i | 0 <= i < |s| :: r[i] == ToLowerChar(s[i])
  {
    seq(|s|, i requires 0 <= i < |s| => ToLowerChar(s[i]))
  }

  lemma ToLowerWithoutUpper(s: string)
    requires forall i | 0 <= i < |s| :: !('A' <= s[i] <= 'Z')
    ensures ToLower(s) == s
  {
  }

  lemma ToLowerIdempotent(s: string)
    ensures ToLower(ToLower(s)) == ToLower(s)
  {
  }

  /** Java `a.equalsIgnoreCase(b)` for text whose letters are ASCII: equal lengths, and
      the characters agree pairwise once lower-cased. */
  predicate EqualsIgnoreCase(a: string, b: string)
    decreases |a|
  {
    |a| == |b| && (a == [] || (ToLowerChar(a[0]) == ToLowerChar(b[0]) && EqualsIgnoreCase(a[1..], b[1..])))
  }

  /** Comparing ignoring case is comparing the lower-cased texts. */
  lemma {:induction false} EqualsIgnoreCaseIff(a: string, b: string)
    ensures EqualsIgnoreCase(a, b) <==> ToLower(a) == ToLower(b)
    decreases |a|
  {
    if |a| == |b| && a != [] {
      EqualsIgnoreCaseIff(a[1..], b[1..]);
      var la, lb := ToLower(a), ToLower(b);
      assert ToLower(a[1..]) == la[1..];
      assert ToLower(b[1..]) == lb[1..];
      if la == lb {
        assert la[0] == lb[0];
      } else if ToLowerChar(a[0]) == ToLowerChar(b[0]) {
        assert la == [la[0]] + la[1..] && lb == [lb[0]] + lb[1..];
      }
    } else if |a| != |b| {
      assert |ToLower(a)| != |ToLower(b)|;
    }
  }

  // ---------------------------------------------------------------------------
  // startsWith, endsWith, indexOf, replace
  // ---------------------------------------------------------------------------

  predicate StartsWith(s: string, prefix: string) {
    |prefix| <= |s| && s[..|prefix|] == prefix
  }

  predicate EndsWith(s: string, suffix: string) {
    |suffix| <= |s| && s[|s| - |suffix|..] == suffix
  }

  /** Java `s.indexOf(c)`: the first index of `c`, or -1. */
  function IndexOf(s: string, c: char): (k: int)
    ensures -1 <= k < |s|
    ensures k == -1 <==> c !in s
    ensures k >= 0 ==> s[k] == c && c !in s[..k]
  {
    if s == [] then -1
    else if s[0] == c then 0
    else
      var k := IndexOf(s[1..], c);
      assert s[1..][..if k < 0 then 0 else k] == s[1..if k < 0 then 1 else k + 1];
      if k < 0 then -1 else k + 1
  }

  lemma IndexOfAt(a: string, b: string, c: char)
    requires c !in a && b != [] && b[0] == c
    ensures IndexOf(a + b, c) == |a|
  {
    assert (a + b)[|a|] == c;
    assert (a + b)[..|a|] == a;
  }

  /** Java `s.replace(target, replacement)` and JavaScript `s.replaceAll(target, replacement)`
      for a non-empty target: matches are found left to right and do not overlap. */
  function ReplaceAll(s: string, target: string, replacement: string): string
    requires target != []
    decreases |s|
  {
    if |s| < |target| then s
    else if s[..|target|] == target then replacement + ReplaceAll(s[|target|..], target, replacement)
    else [s[0]] + ReplaceAll(s[1..], target, replacement)
  }

  lemma {:induction false} ReplaceAbsent(s: string, target: string, replacement: string)
    requires target != [] && target[0] !in s
    ensures ReplaceAll(s, target, replacement) == s
    decreases |s|
  {
    if |s| >= |target| {
      assert s[..|target|][0] == s[0];
      assert s[1..] + [] == s[1..];
      assert forall c | c in s[1..] :: c in s;
      ReplaceAbsent(s[1..], target, replacement);
      assert s == [s[0]] + s[1..];
    }
  }

  /** Replacing a text that starts with `r` keeps `r`'s first character
      whenever the target cannot match at the front. */
  lemma ReplaceNoMatchHead(c: char, s: string, target: string, replacement: string)
    requires target != [] && |target| <= |[c] + s| && ([c] + s)[..|target|] != target
    ensures ReplaceAll([c] + s, target, replacement) == [c] + ReplaceAll(s, target, replacement)
  {
    assert ([c] + s)[1..] == s;
  }

  lemma ReplaceMatchHead(s: string, target: string, replacement: string)
    requires target != []
    ensures ReplaceAll(target + s, target, replacement) == replacement + ReplaceAll(s, target, replacement)
  {
    assert (target + s)[..|target|] == target;
    assert (target + s)[|target|..] == s;
  }

  // ---------------------------------------------------------------------------
  // String.compareTo: lexicographic order
  // ---------------------------------------------------------------------------

  /** `a.compareTo(b) <= 0`: at the first position where they differ `a` has the smaller
      character, or `a` is a prefix of `b`. */
  predicate LexLe(a: string, b: string)
    decreases |a|
  {
    if a == [] then true
    else if b == [] then false
    else if a[0] != b[0] then a[0] < b[0]
    else LexLe(a[1..], b[1..])
  }

  lemma {:induction false} LexLeReflexive(a: string)
    ensures LexLe(a, a)
    decreases |a|
  {
    if a != [] {
      LexLeReflexive(a[1..]);
    }
  }

  lemma {:induction false} LexLeTotal(a: string, b: string)
    ensures LexLe(a, b) || LexLe(b, a)
    decreases |a|
  {
    if a != [] && b != [] && a[0] == b[0] {
      LexLeTotal(a[1..], b[1..]);
    }
  }

  lemma {:induction false} LexLeAntisymmetric(a: string, b: string)
    requires LexLe(a, b) && LexLe(b, a)
    ensures a == b
    decreases |a|
  {
    if a != [] && b != [] {
      LexLeAntisymmetric(a[1..], b[1..]);
      assert a == [a[0]] + a[1..] && b == [b[0]] + b[1..];
    }
  }

  lemma {:induction false} LexLeTransitive(a: string, b: string, c: string)
    requires LexLe(a, b) && LexLe(b, c)
    ensures LexLe(a, c)
    decreases |a|
  {
    if a != [] && b != [] && c != [] && a[0] == b[0] && b[0] == c[0] {
      LexLeTransitive(a[1..], b[1..], c[1..]);
    }
  }

  // ---------------------------------------------------------------------------
  // Integer.toString and Integer.parseInt (radix 10, ASCII digits)
  // ---------------------------------------------------------------------------

  predicate IsDigit(c: char) {
    '0' <= c <= '9'
  }

  predicate AllDigits(s: string) {
    forall i | 0 <= i < |s| :: IsDigit(s[i])
  }

  function DigitChar(d: nat): (c: char)
    requires d < 10
    ensures IsDigit(c) && c as int - '0' as int == d
  {
    ('0' as int + d) as char
  }

  /** The decimal text of `n`, most significant digit first, without leading zeros. */
  function NatToDigits(n: nat): (s: string)
    ensures s != [] && AllDigits(s)
    ensures |s| > 1 ==> s[0] != '0'
    decreases n
  {
    if n < 10 then [DigitChar(n)] else NatToDigits(n / 10) + [DigitChar(n % 10)]
  }

  /** The value of a run of decimal digits. */
  function DigitsValue(s: string): nat
    requires AllDigits(s)
  {
    if s == [] then 0 else DigitsValue(s[..|s| - 1]) * 10 + (s[|s| - 1] as int - '0' as int)
  }

  lemma {:induction false} DigitsValueOfNat(n: nat)
    ensures DigitsValue(NatToDigits(n)) == n
    decreases n
  {
    if n >= 10 {
      DigitsValueOfNat(n / 10);
      var s := NatToDigits(n);
      assert s[..|s| - 1] == NatToDigits(n / 10);
    }
  }

  /** Java string conversion of an `int` (`"" + n`, `Integer.toString(n)`). */
  function IntToString(n: int): string {
    if n < 0 then "-" + NatToDigits(-n) else NatToDigits(n)
  }

  /** The text after an optional leading `-` or `+`. */
  function Unsigned(s: string): string
    requires s != []
  {
    if s[0] == '-' || s[0] == '+' then s[1..] else s
  }

  /** The syntax `Integer.parseInt` accepts: an optional sign, then at least one digit. */
  predicate DecimalSyntax(s: string) {
    s != [] && Unsigned(s) != [] && AllDigits(Unsigned(s))
  }

  /** The mathematical value such a text denotes. */
  function DecimalValue(s: string): int
    requires DecimalSyntax(s)
  {
    (if s[0] == '-' then -1 else 1) * DigitsValue(Unsigned(s))
  }

  /** A text `Integer.parseInt` accepts: decimal syntax and a value within the `int` range. */
  predicate IsInt32Text(s: string) {
    DecimalSyntax(s) && -0x8000_0000 <= DecimalValue(s) < 0x8000_0000
  }

  /** `Integer.parseInt(s)`: an optional `-` or `+`, then at least one digit, and the value
      must fit in an `int`; anything else is the NumberFormatException case, `None`. */
  function ParseInt(s: string): (r: Option<int32>)
    ensures r.Some? <==> IsInt32Text(s)
    ensures r.Some? ==> r.value as int == DecimalValue(s)
  {
    if s == [] then None
    else
      var body := if s[0] == '-' || s[0] == '+' then s[1..] else s;
      if body == [] || !AllDigits(body) then None
      else
        var v: int := if s[0] == '-' then 0 - DigitsValue(body) as int else DigitsValue(body) as int;
        if -0x8000_0000 <= v < 0x8000_0000 then Some(v as int32) else None
  }

  /** A leading zero does not change the value of a run of digits. */
  lemma {:induction false} DigitsValueLeadingZero(s: string)
    requires AllDigits(s)
    ensures AllDigits("0" + s) && DigitsValue("0" + s) == DigitsValue(s)
    decreases |s|
  {
    assert AllDigits("0" + s) by {
      forall i | 0 <= i < |"0" + s| ensures IsDigit(("0" + s)[i]) {
        if i > 0 {
          assert ("0" + s)[i] == s[i - 1];
        }
      }
    }
    if s != [] {
      var front := s[..|s| - 1];
      assert AllDigits(front) by {
        forall i | 0 <= i < |front| ensures IsDigit(front[i]) {
          assert front[i] == s[i];
        }
      }
      DigitsValueLeadingZero(front);
      assert ("0" + s)[..|"0" + s| - 1] == "0" + front;
    }
  }

  /** Leading zeros and a `+` sign are accepted and do not change the value: `"+05"` and
      `"007"` parse as 5 and 7, the way a hand-edited snapshot may write them. */
  lemma ParseIntLeadingZeroAndPlus(digits: string)
    requires digits != [] && AllDigits(digits)
    ensures ParseInt("0" + digits) == ParseInt(digits)
    ensures ParseInt("+" + digits) == ParseInt(digits)
  {
    DigitsValueLeadingZero(digits);
    assert Unsigned("+" + digits) == digits;
  }

  /** The decimal text of a value outside the `int` range is the NumberFormatException case. */
  lemma ParseIntOutOfRange(n: nat)
    requires n >= 0x8000_0000
    ensures ParseInt(NatToDigits(n)) == None
    ensures n > 0x8000_0000 ==> ParseInt("-" + NatToDigits(n)) == None
  {
    DigitsValueOfNat(n);
    assert Unsigned("-" + NatToDigits(n)) == NatToDigits(n);
  }

  /** Writing an `int` as decimal text and parsing it back gives the same `int`. */
  lemma ParseIntToString(n: int32)
    ensures ParseInt(IntToString(n as int)) == Some(n)
  {
    if n < 0 {
      DigitsValueOfNat(-(n as int));
      assert IntToString(n as int)[1..] == NatToDigits(-(n as int));
    } else {
      DigitsValueOfNat(n as int);
    }
  }
}
