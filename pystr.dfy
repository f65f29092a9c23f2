/**
  The few Python string built-ins the script relies on: `str.isspace`/`str.strip`,
  `str.isalnum`, `str.lower`, `str.startswith`/`str.endswith`, the position of
  the first occurrence of a character (where `split('\n', 1)` cuts) and `str(n)`
  for an integer.
 */
module PyStr {
  import opened Wrappers

  /** The code points Python's `str.isspace` accepts. */
  const WhitespaceCodes: set<int> :=
    {0x09, 0x0A, 0x0B, 0x0C, 0x0D, 0x1C, 0x1D, 0x1E, 0x1F, 0x20, 0x85, 0xA0, 0x1680,
     0x2000, 0x2001, 0x2002, 0x2003, 0x2004, 0x2005, 0x2006, 0x2007, 0x2008, 0x2009, 0x200A,
     0x2028, 0x2029, 0x202F, 0x205F, 0x3000}

  /** `c.isspace()` */
  predicate IsSpace(c: char) {
    c as int in WhitespaceCodes
  }

  predicate IsDigit(c: char) { '0' <= c <= '9' }

  predicate IsUpper(c: char) { 'A' <= c <= 'Z' }

  predicate IsLower(c: char) { 'a' <= c <= 'z' }

  /** `c.isalnum()`, restricted to ASCII letters and digits. */
  predicate IsAlnum(c: char) { IsLower(c) || IsUpper(c) || IsDigit(c) }

  /** `str.lower()` on one character, for ASCII letters. */
  function LowerChar(c: char): (r: char)
    ensures IsUpper(c) ==> IsLower(r) && r as int == c as int - 'A' as int + 'a' as int
    ensures !IsUpper(c) ==> r == c
  {
    if IsUpper(c) then (c as int - 'A' as int + 'a' as int) as char else c
  }

  /** `s.lower()` */
  function Lower(s: string): (r: string)
    ensures |r| == |s|
    ensures forall i :: 0 <= i < |s| ==> r[i] == LowerChar(s[i])
  {
    seq(|s|, i requires 0 <= i < |s| => LowerChar(s[i]))
  }

  predicate StartsWith(s: string, prefix: string) {
    |prefix| <= |s| && s[..|prefix|] == prefix
  }

  predicate EndsWith(s: string, suffix: string) {
    |suffix| <= |s| && s[|s| - |suffix|..] == suffix
  }

  /** The index of the first `c` in `s`, where `split(c, 1)` cuts; `None` when there is none. */
  function IndexOf(s: string, c: char): (r: Option<nat>)
    ensures r.None? <==> c !in s
    ensures r.Some? ==> r.value < |s| && s[r.value] == c && c !in s[..r.value]
  {
    if s == [] then None
    else if s[0] == c then Some(0)
    else
      match IndexOf(s[1..], c)
      case None => None
      case Some(i) =>
        assert s[..i + 1] == [s[0]] + s[1..][..i];
        Some(i + 1)
  }

  /** Splitting a sequence at a separator that the first part does not contain is unambiguous. */
  lemma SplitAtSeparator<T>(a1: seq<T>, b1: seq<T>, a2: seq<T>, b2: seq<T>, sep: T)
    requires sep !in a1 && sep !in a2
    requires a1 + [sep] + b1 == a2 + [sep] + b2
    ensures a1 == a2 && b1 == b2
  {
    var x := a1 + [sep] + b1;
    assert forall i :: 0 <= i < |a1| ==> x[i] != sep by {
      forall i | 0 <= i < |a1| ensures x[i] != sep { assert x[i] == a1[i]; }
    }
    assert forall i :: 0 <= i < |a2| ==> x[i] != sep by {
      forall i | 0 <= i < |a2| ensures x[i] != sep { assert x[i] == a2[i]; }
    }
    assert x[|a1|] == sep && x[|a2|] == sep;
    assert |a1| == |a2|;
    assert a1 == x[..|a1|] == a2;
    assert b1 == x[|a1| + 1..] == b2;
  }

  // ---------------------------------------------------------------------------
  // str.strip()

  /** Every character of `s[lo..hi]` is whitespace. */
  predicate SpaceBetween(s: string, lo: int, hi: int) {
    forall p :: 0 <= lo <= p < hi <= |s| ==> IsSpace(s[p])
  }

  predicate AllSpace(s: string) {
    SpaceBetween(s, 0, |s|)
  }

  /** What `strip()` leaves: no whitespace at either end. */
  predicate IsStripped(s: string) {
    s == [] || (!IsSpace(s[0]) && !IsSpace(s[|s| - 1]))
  }

  /** Where `lstrip()` stops: the first non-whitespace index at or after `i`, or `|s|`. */
  function FirstNonSpace(s: string, i: nat): (k: nat)
    requires i <= |s|
    ensures i <= k <= |s| && SpaceBetween(s, i, k)
    ensures k < |s| ==> !IsSpace(s[k])
    decreases |s| - i
  {
    if i < |s| && IsSpace(s[i]) then FirstNonSpace(s, i + 1) else i
  }

  /** Where `rstrip()` stops: just after the last non-whitespace character of `s[lo..j]`, or `lo`. */
  function EndOfNonSpace(s: string, lo: nat, j: nat): (e: nat)
    requires lo <= j <= |s|
    ensures lo <= e <= j && SpaceBetween(s, e, j)
    ensures lo < e ==> !IsSpace(s[e - 1])
    decreases j
  {
    if lo < j && IsSpace(s[j - 1]) then EndOfNonSpace(s, lo, j - 1) else j
  }

  /** Where `Strip(s)` starts inside `s`. */
  function StripStart(s: string): nat
  {
    FirstNonSpace(s, 0)
  }

  /** `s.strip()`: `lstrip()`, then `rstrip()` of what is left. */
  function Strip(s: string): (r: string)
    ensures IsStripped(r)
    ensures |r| <= |s|
  {
    var k := StripStart(s);
    var e := EndOfNonSpace(s, k, |s|);
    assert k < e ==> s[k..e][0] == s[k] && s[k..e][e - k - 1] == s[e - 1];
    s[k..e]
  }

  /** `Strip(s)` is the slice of `s` between leading and trailing whitespace. */
  lemma StripIsSlice(s: string)
    ensures StripStart(s) + |Strip(s)| <= |s|
    ensures Strip(s) == s[StripStart(s)..StripStart(s) + |Strip(s)|]
    ensures SpaceBetween(s, 0, StripStart(s)) && SpaceBetween(s, StripStart(s) + |Strip(s)|, |s|)
  {
  }

  /** The first non-whitespace index is unique. */
  lemma FirstNonSpaceAt(s: string, i: nat, m: nat)
    requires i <= m <= |s| && SpaceBetween(s, i, m) && (m < |s| ==> !IsSpace(s[m]))
    ensures FirstNonSpace(s, i) == m
  {
    var k := FirstNonSpace(s, i);
    assert m <= k;
    assert k <= m;
  }

  /** The end of the last non-whitespace run is unique. */
  lemma EndOfNonSpaceAt(s: string, lo: nat, j: nat, m: nat)
    requires lo <= m <= j <= |s| && SpaceBetween(s, m, j) && (lo < m ==> !IsSpace(s[m - 1]))
    ensures EndOfNonSpace(s, lo, j) == m
  {
    var e := EndOfNonSpace(s, lo, j);
    assert m <= e;
    assert e <= m;
  }

  /**
    `strip()` is characterised by its result alone: whenever `s` is whitespace,
    then a stripped slice `s[i..j]`, then whitespace, it returns that slice.
   */
  lemma StripUnique(s: string, i: nat, j: nat)
    requires i <= j <= |s|
    requires SpaceBetween(s, 0, i) && SpaceBetween(s, j, |s|) && IsStripped(s[i..j])
    ensures Strip(s) == s[i..j]
  {
    if i == j {
      assert SpaceBetween(s, 0, |s|) by {
        forall p | 0 <= p < |s| ensures IsSpace(s[p]) {
          assert p < i || j <= p;
        }
      }
      FirstNonSpaceAt(s, 0, |s|);
      EndOfNonSpaceAt(s, |s|, |s|, |s|);
    } else {
      assert !IsSpace(s[i]) && !IsSpace(s[j - 1]) by {
        assert s[i] == s[i..j][0] && s[j - 1] == s[i..j][j - i - 1];
      }
      FirstNonSpaceAt(s, 0, i);
      EndOfNonSpaceAt(s, i, |s|, j);
    }
  }

  lemma StripOfStripped(s: string)
    requires IsStripped(s)
    ensures Strip(s) == s
  {
    StripUnique(s, 0, |s|);
    assert s[0..|s|] == s;
  }

  /** `strip()` is idempotent. */
  lemma StripIdempotent(s: string)
    ensures Strip(Strip(s)) == Strip(s)
  {
    StripOfStripped(Strip(s));
  }

  /** Whitespace around a text does not change what `strip()` returns. */
  lemma StripPadded(pre: string, s: string, post: string)
    requires AllSpace(pre) && AllSpace(post)
    ensures Strip(pre + s + post) == Strip(s)
  {
    StripIsSlice(s);
    StripAround(pre, s, post, StripStart(s), Strip(s));
  }

  /** Padding keeps the stripped slice `s[a..a + |r|]` what `strip()` returns. */
  lemma StripAround(pre: string, s: string, post: string, a: nat, r: string)
    requires AllSpace(pre) && AllSpace(post)
    requires a + |r| <= |s| && r == s[a..a + |r|] && IsStripped(r)
    requires SpaceBetween(s, 0, a) && SpaceBetween(s, a + |r|, |s|)
    ensures Strip(pre + s + post) == r
  {
    var x := pre + s + post;
    var b := a + |r|;
    PaddedBefore(pre, s, post, a);
    PaddedAfter(pre, s, post, b);
    PaddedSlice(pre, s, post, a, b);
    StripOfSlice(x, |pre| + a, |pre| + b, r);
  }

  lemma StripOfSlice(x: string, i: nat, j: nat, r: string)
    requires i <= j <= |x|
    requires SpaceBetween(x, 0, i) && SpaceBetween(x, j, |x|) && x[i..j] == r && IsStripped(r)
    ensures Strip(x) == r
  {
    StripUnique(x, i, j);
  }

  lemma PaddedBefore(pre: string, s: string, post: string, a: nat)
    requires a <= |s| && AllSpace(pre) && SpaceBetween(s, 0, a)
    ensures SpaceBetween(pre + s + post, 0, |pre| + a)
  {
    var x := pre + s + post;
    forall p | 0 <= p < |pre| + a ensures IsSpace(x[p]) {
      if p < |pre| { assert x[p] == pre[p]; } else { assert x[p] == s[p - |pre|]; }
    }
  }

  lemma PaddedAfter(pre: string, s: string, post: string, b: nat)
    requires b <= |s| && AllSpace(post) && SpaceBetween(s, b, |s|)
    ensures SpaceBetween(pre + s + post, |pre| + b, |pre + s + post|)
  {
    var x := pre + s + post;
    forall p | |pre| + b <= p < |x| ensures IsSpace(x[p]) {
      if p < |pre| + |s| { assert x[p] == s[p - |pre|]; } else { assert x[p] == post[p - |pre| - |s|]; }
    }
  }

  lemma PaddedSlice(pre: string, s: string, post: string, a: nat, b: nat)
    requires a <= b <= |s|
    ensures (pre + s + post)[|pre| + a..|pre| + b] == s[a..b]
  {
    var x := pre + s + post;
    forall p | 0 <= p < b - a ensures x[|pre| + a..|pre| + b][p] == s[a..b][p] {
      assert x[|pre| + a + p] == s[a + p];
    }
  }

  // ---------------------------------------------------------------------------
  // str(n) for an integer, and its inverse

  predicate AllDigits(s: string) {
    forall i :: 0 <= i < |s| ==> IsDigit(s[i])
  }

  function DigitChar(d: nat): (c: char)
    requires d < 10
    ensures IsDigit(c)
  {
    ('0' as int + d) as char
  }

  function DigitValue(c: char): (d: nat)
    requires IsDigit(c)
    ensures d < 10
  {
    c as int - '0' as int
  }

  /** `str(n)` for `n >= 0`: decimal digits, most significant first, no leading zero. */
  function NatToDecimal(n: nat): (r: string)
    ensures r != [] && AllDigits(r)
    ensures r[0] == '0' ==> n == 0
    decreases n
  {
    if n < 10 then [DigitChar(n)] else NatToDecimal(n / 10) + [DigitChar(n % 10)]
  }

  /** The value of a string of decimal digits. */
  function DecimalValue(s: string): nat
    requires AllDigits(s)
  {
    if s == [] then 0 else DecimalValue(s[..|s| - 1]) * 10 + DigitValue(s[|s| - 1])
  }

  lemma {:induction false} DecimalRoundTrip(n: nat)
    ensures DecimalValue(NatToDecimal(n)) == n
    decreases n
  {
    if n >= 10 {
      var s := NatToDecimal(n);
      assert s[..|s| - 1] == NatToDecimal(n / 10);
      DecimalRoundTrip(n / 10);
    }
  }

  /** `str(n)` for any Python int: a minus sign for negatives, then the digits. */
  function IntToDecimal(n: int): (r: string)
  {
    if n < 0 then "-" + NatToDecimal(-n) else NatToDecimal(n)
  }

  /** The shape of what `str(n)` produces: an optional minus sign, then at least one digit. */
  predicate IsIntLiteral(s: string) {
    if |s| > 0 && s[0] == '-' then |s| > 1 && AllDigits(s[1..]) else |s| > 0 && AllDigits(s)
  }

  /** `int(s)` on what `str` produces. */
  function ParseInt(s: string): int
    requires IsIntLiteral(s)
  {
    if s[0] == '-' then -(DecimalValue(s[1..]) as int) else DecimalValue(s)
  }

  /** `int(str(n)) == n`: the decimal form of an integer determines it. */
  lemma IntRoundTrip(n: int)
    ensures IsIntLiteral(IntToDecimal(n)) && ParseInt(IntToDecimal(n)) == n
  {
    if n < 0 {
      assert IntToDecimal(n)[1..] == NatToDecimal(-n);
      DecimalRoundTrip(-n);
    } else {
      DecimalRoundTrip(n);
    }
  }

  lemma NoDashInDigits(s: string)
    requires AllDigits(s)
    ensures '-' !in s
  {
    assert forall i :: 0 <= i < |s| ==> s[i] != '-';
  }

  // ---------------------------------------------------------------------------
  // Sequence and map helpers

  lemma ConcatAssoc<T>(a: seq<T>, b: seq<T>, c: seq<T>)
    ensures a + (b + c) == a + b + c
  {
  }

  lemma PrefixOf<T>(a: seq<T>, b: seq<T>)
    ensures (a + b)[..|a|] == a
  {
  }

  lemma SuffixOf<T>(a: seq<T>, b: seq<T>)
    ensures (a + b)[|a|..] == b
  {
  }

  lemma CharNotInConcat(a: string, b: string, c: char)
    requires c !in a && c !in b
    ensures c !in a + b
  {
  }

  /** The number of line breaks in `s`. */
  function NewlineCount(s: string): nat {
    if s == [] then 0 else (if s[0] == '\n' then 1 else 0) + NewlineCount(s[1..])
  }

  lemma {:induction false} NoNewlineCount(s: string)
    requires '\n' !in s
    ensures NewlineCount(s) == 0
  {
    if s != [] {
      assert forall c :: c in s[1..] ==> c in s;
      NoNewlineCount(s[1..]);
    }
  }

  lemma {:induction false} NewlineCountConcat(a: string, b: string)
    ensures NewlineCount(a + b) == NewlineCount(a) + NewlineCount(b)
  {
    if a == [] {
      assert a + b == b;
    } else {
      assert (a + b)[0] == a[0] && (a + b)[1..] == a[1..] + b;
      NewlineCountConcat(a[1..], b);
    }
  }

  lemma MergeThenUpdate<K, V>(m1: map<K, V>, m2: map<K, V>, k: K, v: V)
    ensures (m1 + m2)[k := v] == m1 + m2[k := v]
  {
  }

  lemma PrefixCancel<T>(p: seq<T>, a: seq<T>, b: seq<T>)
    requires p + a == p + b
    ensures a == b
  {
    assert a == (p + a)[|p|..];
    assert b == (p + b)[|p|..];
  }

  lemma SuffixCancel<T>(a: seq<T>, b: seq<T>, q: seq<T>)
    requires a + q == b + q
    ensures a == b
  {
    assert a == (a + q)[..|a|];
    assert b == (b + q)[..|b|];
  }

  /** Digits followed by '-' split unambiguously. */
  lemma DigitsDashSplit(d1: string, rest1: string, d2: string, rest2: string)
    requires AllDigits(d1) && AllDigits(d2)
    requires d1 + "-" + rest1 == d2 + "-" + rest2
    ensures d1 == d2 && rest1 == rest2
  {
    NoDashInDigits(d1);
    NoDashInDigits(d2);
    SplitAtSeparator(d1, rest1, d2, rest2, '-');
  }

  /** `str(n)` starts with '-' exactly for negative `n`. */
  lemma DecimalSign(n: int)
    ensures |IntToDecimal(n)| > 0 && (IntToDecimal(n)[0] == '-' <==> n < 0)
  {
    if n >= 0 {
      assert IsDigit(NatToDecimal(n)[0]);
    }
  }

  lemma NatToDecimalInjective(a: nat, b: nat)
    requires NatToDecimal(a) == NatToDecimal(b)
    ensures a == b
  {
    DecimalRoundTrip(a);
    DecimalRoundTrip(b);
  }

  /**
    `str(n) + "-" + rest` determines both `n` and `rest`: the number ends at the
    first '-' after its optional sign.
   */
  lemma DecimalDashSplit(n1: int, rest1: string, n2: int, rest2: string)
    requires IntToDecimal(n1) + "-" + rest1 == IntToDecimal(n2) + "-" + rest2
    ensures n1 == n2 && rest1 == rest2
  {
    SignsAgree(n1, rest1, n2, rest2);
    var m1: nat, m2: nat := if n1 < 0 then -n1 else n1, if n2 < 0 then -n2 else n2;
    var d1, d2 := NatToDecimal(m1), NatToDecimal(m2);
    assert d1 + "-" + rest1 == d2 + "-" + rest2 by {
      if n1 < 0 {
        DropSign(d1, rest1, d2, rest2);
      }
    }
    DigitsDashSplit(d1, rest1, d2, rest2);
    NatToDecimalInjective(m1, m2);
  }

  lemma SignsAgree(n1: int, rest1: string, n2: int, rest2: string)
    requires IntToDecimal(n1) + "-" + rest1 == IntToDecimal(n2) + "-" + rest2
    ensures (n1 < 0) == (n2 < 0)
  {
    var x := IntToDecimal(n1) + "-" + rest1;
    DecimalSign(n1);
    DecimalSign(n2);
    assert x[0] == IntToDecimal(n1)[0];
    assert x[0] == IntToDecimal(n2)[0];
  }

  lemma DropSign(d1: string, rest1: string, d2: string, rest2: string)
    requires "-" + d1 + "-" + rest1 == "-" + d2 + "-" + rest2
    ensures d1 + "-" + rest1 == d2 + "-" + rest2
  {
    ConcatAssoc("-", d1 + "-", rest1);
    ConcatAssoc("-", d1, "-");
    ConcatAssoc("-", d2 + "-", rest2);
    ConcatAssoc("-", d2, "-");
    PrefixCancel("-", d1 + "-" + rest1, d2 + "-" + rest2);
  }
}
