/** String helpers with the meaning of the JavaScript and Python string methods the
    source calls: `startsWith`, `lastIndexOf`, `split('/').pop()`, `str(int)`. */
module Strings {
  import opened Wrappers

  /** `s.startsWith(prefix)`. */
  predicate StartsWith(s: string, prefix: string) {
    |prefix| <= |s| && s[..|prefix|] == prefix
  }

  /** A prefix of a string is a prefix of any extension of it. */
  lemma StartsWithConcat(a: string, b: string, prefix: string)
    requires StartsWith(a, prefix)
    ensures StartsWith(a + b, prefix)
  {
    assert (a + b)[..|prefix|] == a[..|prefix|];
  }

  /** s finishes with suffix. */
  predicate EndsWith(s: string, suffix: string) {
    |suffix| <= |s| && s[|s| - |suffix|..] == suffix
  }

  /** `s.lastIndexOf(c)`: the position of the last c in s, or -1 when s has none. */
  function LastIndexOf(s: string, c: char): (r: int)
    ensures -1 <= r < |s|
    ensures r >= 0 ==> s[r] == c
    ensures forall k :: r < k < |s| ==> s[k] != c
    decreases |s|
  {
    if s == [] then -1
    else if s[|s| - 1] == c then |s| - 1
    else LastIndexOf(s[..|s| - 1], c)
  }

  /** `url.split('/').pop()`: the text after the last '/', or all of url when it has none. */
  function LastSegment(url: string): (r: string)
    ensures forall i :: 0 <= i < |r| ==> r[i] != '/'
    ensures EndsWith(url, r)
    ensures |r| < |url| ==> url[|url| - |r| - 1] == '/'
  {
    url[LastIndexOf(url, '/') + 1..]
  }

  /** Appending "/" and a name without '/' to any path makes that name the last segment. */
  lemma LastSegmentOfPath(path: string, name: string)
    requires forall i :: 0 <= i < |name| ==> name[i] != '/'
    ensures LastSegment(path + "/" + name) == name
  {
    var url := path + "/" + name;
    var k := LastIndexOf(url, '/');
    assert url[|path|] == '/';
    assert forall j :: |path| < j < |url| ==> url[j] == name[j - |path| - 1];
    assert k == |path|;
    assert url[|path| + 1..] == name;
  }

  /** `href.substring(0, href.lastIndexOf('/') + 1)`: everything up to and including the last '/'. */
  function Directory(href: string): (r: string)
    ensures r == [] || r[|r| - 1] == '/'
    ensures StartsWith(href, r)
    ensures forall k :: |r| <= k < |href| ==> href[k] != '/'
  {
    href[..LastIndexOf(href, '/') + 1]
  }

  /** The decimal digit for 0 <= d < 10. */
  function Digit(d: int): (c: char)
    requires 0 <= d < 10
    ensures '0' <= c <= '9'
  {
    (48 + d) as char
  }

  /** Python's `str(n)` for a natural number: its decimal digits. */
  function NatToString(n: nat): (r: string)
    ensures 1 <= |r|
    ensures forall k :: 0 <= k < |r| ==> '0' <= r[k] <= '9'
    ensures (|r| == 1) == (n < 10)
    decreases n
  {
    if n < 10 then [Digit(n)] else NatToString(n / 10) + [Digit(n % 10)]
  }

  /** Distinct numbers have distinct decimal strings, so `str(i)` identifies node i. */
  lemma {:induction false} NatToStringInjective(a: nat, b: nat)
    requires NatToString(a) == NatToString(b)
    ensures a == b
    decreases a
  {
    if a >= 10 {
      var sa, sb := NatToString(a), NatToString(b);
      assert b >= 10;
      assert sa[..|sa| - 1] == NatToString(a / 10);
      assert sb[..|sb| - 1] == NatToString(b / 10);
      NatToStringInjective(a / 10, b / 10);
      assert Digit(a % 10) == sa[|sa| - 1] == sb[|sb| - 1] == Digit(b % 10);
    }
  }

  /** JavaScript's `n.toString()` / Python's `str(n)` for any integer. */
  function IntToString(n: int): (r: string)
    ensures 1 <= |r|
    ensures n < 0 <==> r[0] == '-'
  {
    if n < 0 then "-" + NatToString(-n) else NatToString(n)
  }

  /** Distinct integers have distinct decimal strings. */
  lemma IntToStringInjective(a: int, b: int)
    requires IntToString(a) == IntToString(b)
    ensures a == b
  {
    if a < 0 {
      assert IntToString(a)[1..] == NatToString(-a);
      assert IntToString(b)[1..] == NatToString(-b);
      NatToStringInjective(-a, -b);
    } else {
      NatToStringInjective(a, b);
    }
  }

  predicate IsDigit(c: char) { '0' <= c <= '9' }

  /** The longest prefix of s made of decimal digits. */
  function LeadingDigits(s: string): (r: string)
    ensures StartsWith(s, r)
    ensures forall k :: 0 <= k < |r| ==> IsDigit(r[k])
    ensures |r| < |s| ==> !IsDigit(s[|r|])
  {
    if s == [] || !IsDigit(s[0]) then []
    else
      var r := LeadingDigits(s[1..]);
      assert s[1..][..|r|] == r;
      [s[0]] + r
  }

  /** A string of digits is its own leading-digit prefix. */
  lemma LeadingDigitsAll(s: string)
    requires forall k :: 0 <= k < |s| ==> IsDigit(s[k])
    ensures LeadingDigits(s) == s
  {
  }

  /** The value of one decimal digit. */
  function DigitValue(c: char): (v: nat)
    requires IsDigit(c)
    ensures v < 10
  {
    c as int - '0' as int
  }

  /** The number a string of decimal digits denotes. */
  function DigitsValue(d: string): nat
    requires forall k :: 0 <= k < |d| ==> IsDigit(d[k])
    decreases |d|
  {
    if d == [] then 0 else DigitsValue(d[..|d| - 1]) * 10 + DigitValue(d[|d| - 1])
  }

  /** The digits of n denote n. */
  lemma {:induction false} DigitsValueOfNat(n: nat)
    ensures DigitsValue(NatToString(n)) == n
    decreases n
  {
    if n >= 10 {
      var s := NatToString(n);
      assert s[..|s| - 1] == NatToString(n / 10);
      DigitsValueOfNat(n / 10);
    }
  }

  /** The leading decimal digits of s as a number, None when s does not start with a digit. */
  function ParseDigits(s: string): (r: Option<nat>)
    ensures r.Some? <==> |s| > 0 && IsDigit(s[0])
  {
    var d := LeadingDigits(s);
    if d == [] then None else Some(DigitsValue(d))
  }

  /** The decimal digits of n parse back to n. */
  lemma ParseDigitsOfNat(n: nat)
    ensures ParseDigits(NatToString(n)) == Some(n)
  {
    LeadingDigitsAll(NatToString(n));
    DigitsValueOfNat(n);
  }

  /** JavaScript's `parseInt(s)` for strings without leading white space, '+' or a "0x"
      prefix: an optional '-' and the leading decimal digits, NaN (None) when there are none. */
  function ParseInt(s: string): (r: Option<int>)
    ensures r.Some? ==> 1 <= |s|
  {
    if |s| > 0 && s[0] == '-' then
      match ParseDigits(s[1..])
      case None => None
      case Some(v) => Some(-(v as int))
    else
      match ParseDigits(s)
      case None => None
      case Some(v) => Some(v as int)
  }

  /** `parseInt(n.toString())` gives back n. */
  lemma ParseIntOfIntToString(n: int)
    ensures ParseInt(IntToString(n)) == Some(n)
  {
    var s := IntToString(n);
    if n < 0 {
      assert s[1..] == NatToString(-n);
      ParseDigitsOfNat(-n);
    } else {
      assert s == NatToString(n) && s[0] != '-';
      ParseDigitsOfNat(n);
    }
  }

  /** After a common prefix, a digit string followed by '-' is determined by the text it heads. */
  lemma PrefixedDigitsBeforeDash(p: string, a: string, x: string, b: string, y: string)
    requires forall k :: 0 <= k < |a| ==> IsDigit(a[k])
    requires forall k :: 0 <= k < |b| ==> IsDigit(b[k])
    requires p + a + "-" + x == p + b + "-" + y
    ensures a == b
  {
    var s, t := p + a + "-" + x, p + b + "-" + y;
    assert s[|p|..] == a + "-" + x;
    assert t[|p|..] == b + "-" + y;
    DigitsBeforeDash(a, x, b, y);
  }

  /** A digit string followed by '-' is determined by the text it heads. */
  lemma DigitsBeforeDash(a: string, x: string, b: string, y: string)
    requires forall k :: 0 <= k < |a| ==> IsDigit(a[k])
    requires forall k :: 0 <= k < |b| ==> IsDigit(b[k])
    requires a + "-" + x == b + "-" + y
    ensures a == b
  {
    var s, t := a + "-" + x, b + "-" + y;
    assert s[|a|] == '-' && t[|b|] == '-';
    assert a == s[..|a|] && b == t[..|b|];
  }
}
