/**
 * The few pieces of `java.lang.String` behaviour the services rely on,
 * stated over `seq<char>`: null references, `trim`, `isBlank`, `contains`,
 * `lastIndexOf`, `toLowerCase` and decimal rendering of integers.
 */
module JavaText {

  /** A Java reference that may be null. */
  datatype Option<+T> = Null | Some(value: T)

  /** How string concatenation renders a possibly-null string. */
  function Render(s: Option<string>): string
  {
    if s.Null? then "null" else s.value
  }

  /** The characters `String.trim` strips: every code point up to U+0020. */
  predicate IsTrimmable(c: char)
  {
    c <= ' '
  }

  predicate AllTrimmable(s: string)
  {
    forall k :: 0 <= k < |s| ==> IsTrimmable(s[k])
  }

  /** Neither end of `s` is a trimmable character. */
  predicate IsTrimmed(s: string)
  {
    |s| > 0 ==> !IsTrimmable(s[0]) && !IsTrimmable(s[|s| - 1])
  }

  /** `Character.isWhitespace`, which `String.isBlank` uses: the space,
      line and paragraph separators except the no-break spaces, and the
      control characters U+0009..U+000D and U+001C..U+001F. */
  predicate IsJavaWhitespace(c: char)
  {
    || ('\t' <= c <= '\r')
    || ('\U{1C}' <= c <= ' ')
    || c == '\U{1680}'
    || ('\U{2000}' <= c <= '\U{2006}')
    || ('\U{2008}' <= c <= '\U{200A}')
    || c == '\U{2028}' || c == '\U{2029}' || c == '\U{205F}' || c == '\U{3000}'
  }

  /** `String.isBlank`: empty, or whitespace only. */
  predicate IsBlank(s: string)
  {
    forall k :: 0 <= k < |s| ==> IsJavaWhitespace(s[k])
  }

  /** The number of trimmable characters at the front of `s`. */
  function LeadingTrimmable(s: string): (i: nat)
    ensures i <= |s|
    ensures forall k :: 0 <= k < i ==> IsTrimmable(s[k])
    ensures i < |s| ==> !IsTrimmable(s[i])
  {
    if |s| == 0 || !IsTrimmable(s[0]) then 0 else 1 + LeadingTrimmable(s[1..])
  }

  /** The length of `s` once its trailing trimmable characters are dropped. */
  function TrailingKept(s: string): (j: nat)
    ensures j <= |s|
    ensures forall k :: j <= k < |s| ==> IsTrimmable(s[k])
    ensures j > 0 ==> !IsTrimmable(s[j - 1])
  {
    if |s| == 0 || !IsTrimmable(s[|s| - 1]) then |s| else TrailingKept(s[..|s| - 1])
  }

  /** `String.trim`. The result is the slice of `s` that remains once the
      trimmable characters at both ends are removed. */
  function Trim(s: string): (r: string)
    ensures IsTrimmed(r)
    ensures |r| == 0 <==> AllTrimmable(s)
    ensures exists i :: 0 <= i <= |s| - |r| && r == s[i..i + |r|]
                        && AllTrimmable(s[..i]) && AllTrimmable(s[i + |r|..])
  {
    var i := LeadingTrimmable(s);
    var j := TrailingKept(s);
    if i < j then
      assert AllTrimmable(s[..i]) && AllTrimmable(s[j..]);
      s[i..j]
    else
      assert AllTrimmable(s[..|s|]) by { assert s[..|s|] == s; }
      assert AllTrimmable(s[|s|..]);
      ""
  }

  /** A string with no trimmable character at either end is its own trim. */
  lemma TrimOfTrimmed(s: string)
    requires IsTrimmed(s)
    ensures Trim(s) == s
  {
    if |s| > 0 {
      assert LeadingTrimmable(s) == 0;
      assert TrailingKept(s) == |s|;
    }
  }

  lemma TrimIdempotent(s: string)
    ensures Trim(Trim(s)) == Trim(s)
  {
    TrimOfTrimmed(Trim(s));
  }

  /** Trimming removes exactly the padding around a non-empty trimmed text. */
  lemma TrimStripsPadding(pre: string, s: string, post: string)
    requires AllTrimmable(pre) && AllTrimmable(post)
    requires |s| > 0 && IsTrimmed(s)
    ensures Trim(pre + s + post) == s
  {
    var x := pre + s + post;
    assert x[|pre|] == s[0] && x[|pre| + |s| - 1] == s[|s| - 1];
    assert forall k :: 0 <= k < |pre| ==> x[k] == pre[k];
    assert forall k :: |pre| + |s| <= k < |x| ==> x[k] == post[k - |pre| - |s|];
    assert LeadingTrimmable(x) == |pre|;
    assert TrailingKept(x) == |pre| + |s|;
    assert x[|pre|..|pre| + |s|] == s;
  }

  /** `s[at..]` starts with `t`. */
  predicate OccursAt(s: string, t: string, at: nat)
  {
    at + |t| <= |s| && s[at..at + |t|] == t
  }

  /** `String.contains`, stated as "some window of `s` equals `t`". */
  predicate Contains(s: string, t: string)
  {
    exists at: nat :: at <= |s| && OccursAt(s, t, at)
  }

  /** `String.indexOf(t, from)`: the first occurrence at or after `from`, or -1. */
  function IndexOfFrom(s: string, t: string, from: nat): (r: int)
    requires from <= |s|
    decreases |s| - from
    ensures r == -1 || (from <= r && OccursAt(s, t, r))
    ensures r == -1 ==> forall at: nat :: from <= at ==> !OccursAt(s, t, at)
    ensures r >= 0 ==> forall at: nat :: from <= at < r ==> !OccursAt(s, t, at)
  {
    if OccursAt(s, t, from) then from
    else if from == |s| then
      assert forall at: nat :: from <= at ==> !OccursAt(s, t, at) by {
        forall at: nat | from <= at ensures !OccursAt(s, t, at) {
          if at == from {
          } else {
            assert at + |t| > |s|;
          }
        }
      }
      -1
    else IndexOfFrom(s, t, from + 1)
  }

  /** `String.indexOf(t)`. */
  function IndexOf(s: string, t: string): int
  {
    IndexOfFrom(s, t, 0)
  }

  /** `String.contains` is implemented as `indexOf(t) >= 0`. */
  lemma IndexOfFindsContains(s: string, t: string)
    ensures IndexOf(s, t) >= 0 <==> Contains(s, t)
  {
    if IndexOf(s, t) >= 0 {
      assert OccursAt(s, t, IndexOf(s, t) as nat);
    }
  }

  /** `String.lastIndexOf(c)`: the index of the last `c` in `s`, or -1. */
  function LastIndexOf(s: string, c: char): (r: int)
    ensures -1 <= r < |s|
    ensures r >= 0 ==> s[r] == c
    ensures forall k :: r < k < |s| ==> s[k] != c
  {
    if |s| == 0 then -1
    else if s[|s| - 1] == c then |s| - 1
    else LastIndexOf(s[..|s| - 1], c)
  }

  /** `Character.toLowerCase` for the Latin and Cyrillic capitals; other
      characters are left unchanged. */
  function LowerChar(c: char): char
  {
    if 'A' <= c <= 'Z' then (c as int + 32) as char
    else if '\U{410}' <= c <= '\U{42F}' then (c as int + 32) as char
    else if '\U{400}' <= c <= '\U{40F}' then (c as int + 80) as char
    else c
  }

  /** `String.toLowerCase`, character by character. */
  function ToLowerCase(s: string): (r: string)
    ensures |r| == |s|
    ensures forall k :: 0 <= k < |s| ==> r[k] == LowerChar(s[k])
  {
    seq(|s|, k requires 0 <= k < |s| => LowerChar(s[k]))
  }

  lemma LowerCharIdempotent(c: char)
    ensures LowerChar(LowerChar(c)) == LowerChar(c)
  {
  }

  lemma ToLowerCaseIdempotent(s: string)
    ensures ToLowerCase(ToLowerCase(s)) == ToLowerCase(s)
  {
    forall k | 0 <= k < |s| {
      LowerCharIdempotent(s[k]);
    }
  }

  /** ASCII letters compared without regard to case, as `equalsIgnoreCase`
      does for the strings this model compares. */
  predicate EqualsIgnoreCase(a: string, b: string)
  {
    |a| == |b| && forall k :: 0 <= k < |a| ==> LowerChar(a[k]) == LowerChar(b[k])
  }

  predicate IsDigit(c: char)
  {
    '0' <= c <= '9'
  }

  function DigitChar(d: nat): (c: char)
    requires d < 10
    ensures IsDigit(c)
  {
    "0123456789"[d]
  }

  function DigitValue(c: char): (d: nat)
    requires IsDigit(c)
    ensures d < 10
  {
    c as int - '0' as int
  }

  /** Decimal digits of `n`, most significant first, without leading zeros. */
  function NatToString(n: nat): (s: string)
    ensures |s| > 0
    ensures forall k :: 0 <= k < |s| ==> IsDigit(s[k])
    ensures |s| > 1 ==> s[0] != '0'
  {
    if n < 10 then [DigitChar(n)] else NatToString(n / 10) + [DigitChar(n % 10)]
  }

  /** `Integer.toString` / `%d`: a minus sign for negative values. */
  function IntToString(i: int): string
  {
    if i < 0 then "-" + NatToString(-i) else NatToString(i)
  }

  /** The value of a string of decimal digits. */
  function ParseDigits(s: string): nat
    requires forall k :: 0 <= k < |s| ==> IsDigit(s[k])
  {
    if |s| == 0 then 0 else ParseDigits(s[..|s| - 1]) * 10 + DigitValue(s[|s| - 1])
  }

  /** The inverse of `IntToString`. */
  function ParseInt(s: string): int
  {
    if |s| > 0 && s[0] == '-' && (forall k :: 1 <= k < |s| ==> IsDigit(s[k])) then -(ParseDigits(s[1..]) as int)
    else if forall k :: 0 <= k < |s| ==> IsDigit(s[k]) then ParseDigits(s)
    else 0
  }

  lemma {:induction false} ParseNatToString(n: nat)
    ensures ParseDigits(NatToString(n)) == n
  {
    if n >= 10 {
      var s := NatToString(n);
      ParseNatToString(n / 10);
      assert s[..|s| - 1] == NatToString(n / 10);
      assert DigitValue(s[|s| - 1]) == n % 10;
    }
  }

  /** Rendering an integer in decimal loses nothing. */
  lemma IntToStringRoundTrip(i: int)
    ensures ParseInt(IntToString(i)) == i
  {
    var s := IntToString(i);
    if i < 0 {
      var n := NatToString(-i);
      ParseNatToString(-i);
      assert s == "-" + n && s[0] == '-' && s[1..] == n;
      assert forall k :: 1 <= k < |s| ==> s[k] == n[k - 1];
    } else {
      ParseNatToString(i);
      assert IsDigit(s[0]);
    }
  }
}
