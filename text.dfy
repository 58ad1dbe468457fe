/** The Python string operations the modelled code relies on, for `str` values as `seq<char>`. */
module Text {

  /** `c.isspace()` for the characters Python treats as whitespace. */
  predicate IsSpace(c: char) {
    c == ' ' || c == '\t' || c == '\n' || c == '\r' || c == '\U{000B}' || c == '\U{000C}'
    || ('\U{001C}' <= c <= '\U{001F}') || c == '\U{0085}' || c == '\U{00A0}' || c == '\U{1680}'
    || ('\U{2000}' <= c <= '\U{200A}') || c == '\U{2028}' || c == '\U{2029}' || c == '\U{202F}'
    || c == '\U{205F}' || c == '\U{3000}'
  }

  /** The number of whitespace characters at the start of `s`. */
  function LeadingSpace(s: string): (n: nat)
    ensures n <= |s|
    ensures forall k :: 0 <= k < n ==> IsSpace(s[k])
    ensures n < |s| ==> !IsSpace(s[n])
  {
    if s != [] && IsSpace(s[0]) then 1 + LeadingSpace(s[1..]) else 0
  }

  /** The length of `s` without its trailing whitespace. */
  function TrailingStart(s: string): (n: nat)
    ensures n <= |s|
    ensures forall k :: n <= k < |s| ==> IsSpace(s[k])
    ensures 0 < n ==> !IsSpace(s[n - 1])
  {
    if s != [] && IsSpace(s[|s| - 1]) then TrailingStart(s[..|s| - 1]) else |s|
  }

  /** `s.strip()` */
  function Strip(s: string): (r: string)
    ensures r == [] || (!IsSpace(r[0]) && !IsSpace(r[|r| - 1]))
  {
    var rest := s[LeadingSpace(s)..];
    rest[..TrailingStart(rest)]
  }

  /** Stripping only removes whitespace, and only from the two ends. */
  lemma StripSlice(s: string)
    ensures exists i, j :: 0 <= i <= j <= |s| && Strip(s) == s[i..j]
                        && (forall k :: 0 <= k < i ==> IsSpace(s[k]))
                        && (forall k :: j <= k < |s| ==> IsSpace(s[k]))
  {
    var i := LeadingSpace(s);
    var rest := s[i..];
    var j := i + TrailingStart(rest);
    assert Strip(s) == s[i..j];
    forall k | j <= k < |s| ensures IsSpace(s[k]) {
      assert s[k] == rest[k - i];
    }
  }

  /** A string with no whitespace at either end is its own strip. */
  lemma StripIdempotent(s: string)
    requires s == [] || (!IsSpace(s[0]) && !IsSpace(s[|s| - 1]))
    ensures Strip(s) == s
  {
  }

  /** The index of the first `c` in `s`, or `|s|`. */
  function IndexOf(s: string, c: char): (i: nat)
    ensures i <= |s|
    ensures forall k :: 0 <= k < i ==> s[k] != c
    ensures i < |s| ==> s[i] == c
  {
    if s == [] then 0 else if s[0] == c then 0 else 1 + IndexOf(s[1..], c)
  }

  /** `s.split(c)` for a one-character separator: every separator splits, empty parts are kept. */
  function Split(s: string, c: char): (parts: seq<string>)
    ensures |parts| >= 1
    decreases |s|
  {
    var i := IndexOf(s, c);
    if i == |s| then [s] else [s[..i]] + Split(s[i + 1..], c)
  }

  /** Joining the parts with the separator gives back the string, and no part holds the separator. */
  lemma {:induction false} SplitJoin(s: string, c: char)
    ensures Join(Split(s, c), c) == s
    ensures forall p :: p in Split(s, c) ==> c !in p
    decreases |s|
  {
    var i := IndexOf(s, c);
    if i < |s| {
      SplitJoin(s[i + 1..], c);
      PrependPart(s[..i], Split(s[i + 1..], c));
      assert s == s[..i] + [c] + s[i + 1..];
    }
  }

  /** The first part and the rest of a list of parts with one part put in front. */
  lemma PrependPart(x: string, rest: seq<string>)
    ensures |[x] + rest| == |rest| + 1 && ([x] + rest)[0] == x && ([x] + rest)[1..] == rest
    ensures forall p :: p in [x] + rest <==> p == x || p in rest
  {
  }

  /** `c.join(parts)` */
  function Join(parts: seq<string>, c: char): string
    requires |parts| >= 1
  {
    if |parts| == 1 then parts[0] else parts[0] + [c] + Join(parts[1..], c)
  }

  /** A string without the separator is one part; two separator-free strings joined by it are two. */
  lemma SplitParts(a: string, b: string, c: char)
    requires c !in a && c !in b
    ensures Split(a, c) == [a]
    ensures Split(a + [c] + b, c) == [a, b]
  {
    var s := a + [c] + b;
    assert s[..|a|] == a && s[|a| + 1..] == b;
    assert IndexOf(s, c) == |a| by {
      assert s[|a|] == c;
      assert forall k :: 0 <= k < |a| ==> s[k] == a[k];
    }
  }

  /** `s.split(c, 1)`: at most one split, at the first separator. */
  function SplitOnce(s: string, c: char): (parts: seq<string>)
    ensures c !in s ==> parts == [s]
    ensures c in s ==> |parts| == 2 && parts[0] + [c] + parts[1] == s && c !in parts[0]
  {
    var i := IndexOf(s, c);
    if i == |s| then [s] else [s[..i], s[i + 1..]]
  }

  /** An ASCII lower-case letter. */
  predicate IsLowerAscii(c: char) {
    'a' <= c <= 'z'
  }

  /** An ASCII upper-case letter. */
  predicate IsUpperAscii(c: char) {
    'A' <= c <= 'Z'
  }

  /**
   * `str.upper()` as a canonicalizer, on ASCII letters: no lower-case letter is
   * left, and every character that is not one is kept where it is.
   */
  function Upper(s: string): (r: string)
    ensures |r| == |s|
    ensures forall k :: 0 <= k < |r| ==> !IsLowerAscii(r[k])
    ensures forall k :: 0 <= k < |s| && !IsLowerAscii(s[k]) ==> r[k] == s[k]
    ensures forall k :: 0 <= k < |s| && IsLowerAscii(s[k]) ==> IsUpperAscii(r[k])
  {
    seq(|s|, k requires 0 <= k < |s| => if IsLowerAscii(s[k]) then s[k] - 'a' + 'A' else s[k])
  }

  /**
   * `str.lower()` as a canonicalizer, on ASCII letters: no upper-case letter is
   * left, and every character that is not one is kept where it is.
   */
  function Lower(s: string): (r: string)
    ensures |r| == |s|
    ensures forall k :: 0 <= k < |r| ==> !IsUpperAscii(r[k])
    ensures forall k :: 0 <= k < |s| && !IsUpperAscii(s[k]) ==> r[k] == s[k]
    ensures forall k :: 0 <= k < |s| && IsUpperAscii(s[k]) ==> IsLowerAscii(r[k])
  {
    seq(|s|, k requires 0 <= k < |s| => if IsUpperAscii(s[k]) then s[k] - 'A' + 'a' else s[k])
  }

  /** Upper-casing twice is upper-casing once. */
  lemma UpperIdempotent(s: string)
    ensures Upper(Upper(s)) == Upper(s)
  {
    assert forall k :: 0 <= k < |s| ==> Upper(Upper(s))[k] == Upper(s)[k];
  }

  /** Lower-casing twice is lower-casing once. */
  lemma LowerIdempotent(s: string)
    ensures Lower(Lower(s)) == Lower(s)
  {
    assert forall k :: 0 <= k < |s| ==> Lower(Lower(s))[k] == Lower(s)[k];
  }

  /** Upper-casing forgets an earlier lower-casing: both canonicalize the same names together. */
  lemma UpperOfLower(s: string)
    ensures Upper(Lower(s)) == Upper(s)
  {
    assert forall k :: 0 <= k < |s| ==> Upper(Lower(s))[k] == Upper(s)[k];
  }

  /** Lower-casing forgets an earlier upper-casing. */
  lemma LowerOfUpper(s: string)
    ensures Lower(Upper(s)) == Lower(s)
  {
    assert forall k :: 0 <= k < |s| ==> Lower(Upper(s))[k] == Lower(s)[k];
  }

  /**
   * Two names have the same upper-cased form exactly when they have the same
   * lower-cased form: the two canonicalizers match the same table names.
   */
  lemma UpperMatchesLower(s: string, t: string)
    ensures Upper(s) == Upper(t) <==> Lower(s) == Lower(t)
  {
    if Upper(s) == Upper(t) {
      LowerOfUpper(s);
      LowerOfUpper(t);
    }
    if Lower(s) == Lower(t) {
      UpperOfLower(s);
      UpperOfLower(t);
    }
  }

  function DigitChar(d: nat): (c: char)
    requires d < 10
    ensures '0' <= c <= '9' && c as int - '0' as int == d
  {
    ('0' as int + d) as char
  }

  /** `str(n)` for a natural number. */
  function NatToString(n: nat): (r: string)
    ensures |r| >= 1
    ensures forall k :: 0 <= k < |r| ==> '0' <= r[k] <= '9'
    ensures |r| > 1 ==> r[0] != '0'
  {
    if n < 10 then [DigitChar(n)] else NatToString(n / 10) + [DigitChar(n % 10)]
  }

  /** `str(i)` for an integer. */
  function IntToString(i: int): string {
    if i < 0 then "-" + NatToString(-i) else NatToString(i)
  }

  /** Reading a string of decimal digits. */
  function ParseNat(s: string): nat
    requires forall k :: 0 <= k < |s| ==> '0' <= s[k] <= '9'
  {
    if s == [] then 0 else 10 * ParseNat(s[..|s| - 1]) + (s[|s| - 1] as int - '0' as int)
  }

  /** The decimal rendering of a number reads back as that number. */
  lemma {:induction false} NatToStringParses(n: nat)
    ensures ParseNat(NatToString(n)) == n
  {
    if n >= 10 {
      NatToStringParses(n / 10);
      var s := NatToString(n);
      assert s == NatToString(n / 10) + [DigitChar(n % 10)];
      assert s[..|s| - 1] == NatToString(n / 10);
      assert s[|s| - 1] as int - '0' as int == n % 10;
    }
  }

  /** Distinct numbers render differently. */
  lemma NatToStringInjective(m: nat, n: nat)
    requires NatToString(m) == NatToString(n)
    ensures m == n
  {
    NatToStringParses(m);
    NatToStringParses(n);
  }
}
