/**
 * The pieces of the Arduino `String` class and of the C library that the
 * firmware's parsers and formatters rely on: `indexOf`, `lastIndexOf`,
 * `substring`, `toLowerCase`/`toUpperCase`, `toInt`/`atol`/`atoi` and
 * `String(unsigned)`.  Strings are sequences of characters; an index that
 * the C++ code passes as `unsigned int` is converted with `Unsigned`.
 */
module Arduino {

  const Uint32Modulus: int := 0x1_0000_0000

  /** An `int` reinterpreted as a 32-bit `unsigned int` (so -1 becomes 2^32 - 1). */
  function Unsigned(i: int): (u: nat)
    ensures u < Uint32Modulus
    ensures 0 <= i < Uint32Modulus ==> u == i
  {
    i % Uint32Modulus
  }

  // ---------------------------------------------------------------------------
  // Searching

  predicate OccursAt(s: string, pat: string, k: nat)
  {
    k + |pat| <= |s| && s[k..k + |pat|] == pat
  }

  lemma OccursAtChar(s: string, c: char, k: nat)
    ensures OccursAt(s, [c], k) <==> k < |s| && s[k] == c
  {
    if k < |s| {
      assert s[k..k + 1] == [s[k]];
    }
  }

  /**
   * `s.indexOf(pat, from)`: the first occurrence of `pat` at or after `from`,
   * or -1.  Like Arduino's implementation it answers -1 whenever `from` is not
   * an index of `s`.
   */
  function IndexOfFrom(s: string, pat: string, from: nat): (r: int)
    ensures r == -1 || (from <= r < |s| && OccursAt(s, pat, r))
    ensures forall k :: from <= k < |s| && (r == -1 || k < r) ==> !OccursAt(s, pat, k)
    decreases |s| - from
  {
    if from >= |s| then -1
    else if OccursAt(s, pat, from) then from
    else IndexOfFrom(s, pat, from + 1)
  }

  predicate NoChar(s: string, c: char)
  {
    forall i :: 0 <= i < |s| ==> s[i] != c
  }

  /** An occurrence at `k` with none between `from` and `k` is what `indexOf` finds. */
  lemma IndexOfFromFirst(s: string, pat: string, from: nat, k: nat)
    requires from <= k < |s| && OccursAt(s, pat, k)
    requires forall j :: from <= j < k ==> !OccursAt(s, pat, j)
    ensures IndexOfFrom(s, pat, from) == k
  {
  }

  /** `pat` cannot occur where its first character does not. */
  lemma NotOccursAt(s: string, pat: string, k: nat)
    requires |pat| > 0 && k < |s| && s[k] != pat[0]
    ensures !OccursAt(s, pat, k)
  {
    if k + |pat| <= |s| {
      assert s[k..k + |pat|][0] == s[k];
    }
  }

  /** With no occurrence at or after `from`, `indexOf` answers -1. */
  lemma IndexOfFromAbsent(s: string, pat: string, from: nat)
    requires forall j :: from <= j < |s| ==> !OccursAt(s, pat, j)
    ensures IndexOfFrom(s, pat, from) == -1
  {
  }

  /** A single-character search: -1 exactly when the character does not occur from `from` on. */
  lemma IndexOfCharFrom(s: string, c: char, from: nat)
    ensures var r := IndexOfFrom(s, [c], from);
      && (r == -1 <==> forall j :: from <= j < |s| ==> s[j] != c)
      && (r != -1 ==> from <= r < |s| && s[r] == c && forall j :: from <= j < r ==> s[j] != c)
  {
    var r := IndexOfFrom(s, [c], from);
    forall j | from <= j < |s|
      ensures OccursAt(s, [c], j) <==> s[j] == c
    {
      OccursAtChar(s, c, j);
    }
    if r != -1 {
      OccursAtChar(s, c, r);
    }
  }

  /** The first occurrence of `c` at or after `from` is what `indexOf` finds. */
  lemma IndexOfCharAt(s: string, c: char, from: nat, k: nat)
    requires from <= k < |s| && s[k] == c && NoChar(s[from..k], c)
    ensures IndexOfFrom(s, [c], from) == k
  {
    IndexOfCharFrom(s, c, from);
  }

  /** `s.indexOf(pat)`. */
  function IndexOf(s: string, pat: string): int
  {
    IndexOfFrom(s, pat, 0)
  }

  /** `s.lastIndexOf(c)`: the last index holding `c`, or -1. */
  function LastIndexOf(s: string, c: char): (r: int)
    ensures r == -1 || (0 <= r < |s| && s[r] == c)
    ensures forall k :: r < k < |s| ==> s[k] != c
  {
    if |s| == 0 then -1
    else if s[|s| - 1] == c then |s| - 1
    else LastIndexOf(s[..|s| - 1], c)
  }

  /**
   * `s.substring(left, right)`: the bounds are swapped when reversed, the
   * result is empty when the lower bound is not an index of `s`, and the upper
   * bound is clipped to the length.
   */
  function Substring(s: string, left: nat, right: nat): string
  {
    var lo := if left <= right then left else right;
    var hi := if left <= right then right else left;
    if lo >= |s| then "" else s[lo..if hi <= |s| then hi else |s|]
  }

  lemma SubstringInRange(s: string, left: nat, right: nat)
    requires left <= right <= |s|
    ensures Substring(s, left, right) == s[left..right]
  {
  }

  // ---------------------------------------------------------------------------
  // Case conversion (the C locale: only ASCII letters change)

  predicate IsUpper(c: char) { 'A' <= c <= 'Z' }
  predicate IsLowerLetter(c: char) { 'a' <= c <= 'z' }

  function LowerChar(c: char): char
  {
    if IsUpper(c) then (c as int + 32) as char else c
  }

  function UpperChar(c: char): char
  {
    if IsLowerLetter(c) then (c as int - 32) as char else c
  }

  /** `s.toLowerCase()`. */
  function ToLower(s: string): (r: string)
    ensures |r| == |s|
    ensures forall i :: 0 <= i < |s| ==> r[i] == LowerChar(s[i])
  {
    seq(|s|, i requires 0 <= i < |s| => LowerChar(s[i]))
  }

  /** `s.toUpperCase()`. */
  function ToUpper(s: string): (r: string)
    ensures |r| == |s|
    ensures forall i :: 0 <= i < |s| ==> r[i] == UpperChar(s[i])
  {
    seq(|s|, i requires 0 <= i < |s| => UpperChar(s[i]))
  }

  /** No upper-case ASCII letter occurs in `s`. */
  predicate NoUpper(s: string)
  {
    forall i :: 0 <= i < |s| ==> !IsUpper(s[i])
  }

  lemma ToLowerHasNoUpper(s: string)
    ensures NoUpper(ToLower(s))
  {
  }

  lemma ToLowerOfLower(s: string)
    requires NoUpper(s)
    ensures ToLower(s) == s
  {
  }

  lemma ToLowerConcat(a: string, b: string)
    ensures ToLower(a + b) == ToLower(a) + ToLower(b)
  {
  }

  // ---------------------------------------------------------------------------
  // Decimal numbers

  predicate IsDigit(c: char) { '0' <= c <= '9' }

  /** The characters `isspace` accepts in the C locale. */
  predicate IsSpace(c: char)
  {
    c == ' ' || c == '\t' || c == '\n' || c == '\r' || c as int == 11 || c as int == 12
  }

  predicate AllDigits(s: string)
  {
    forall i :: 0 <= i < |s| ==> IsDigit(s[i])
  }

  lemma DigitsHaveNoUpper(s: string)
    requires AllDigits(s)
    ensures NoUpper(s)
  {
  }

  function DigitChar(d: nat): (c: char)
    requires d < 10
    ensures IsDigit(c)
  {
    ('0' as int + d) as char
  }

  function DigitValue(c: char): (d: nat)
    requires IsDigit(c)
    ensures d < 10
  {
    c as int - '0' as int
  }

  /** The length of the longest prefix of `s` made of digits. */
  function DigitPrefixLength(s: string): (n: nat)
    ensures n <= |s|
    ensures AllDigits(s[..n])
    ensures n < |s| ==> !IsDigit(s[n])
  {
    if |s| > 0 && IsDigit(s[0]) then
      var n := 1 + DigitPrefixLength(s[1..]);
      assert s[..n] == [s[0]] + s[1..][..n - 1];
      n
    else 0
  }

  /** The number a string of decimal digits denotes. */
  function DigitsValue(d: string): nat
    requires AllDigits(d)
  {
    if |d| == 0 then 0 else 10 * DigitsValue(d[..|d| - 1]) + DigitValue(d[|d| - 1])
  }

  /** The value of the leading digits of `s` (0 when there are none). */
  function LeadingValue(s: string): nat
  {
    DigitsValue(s[..DigitPrefixLength(s)])
  }

  /**
   * `atol(s)` (and `atoi`, `String::toInt`): leading white space is skipped,
   * one optional sign is read, then as many digits as follow.  The model does
   * not bound the result; the source's `long` overflows on more than nine
   * or ten digits.
   */
  function Atol(s: string): int
  {
    if |s| > 0 && IsSpace(s[0]) then Atol(s[1..])
    else if |s| > 0 && s[0] == '-' then 0 - LeadingValue(s[1..]) as int
    else if |s| > 0 && s[0] == '+' then LeadingValue(s[1..])
    else LeadingValue(s)
  }

  /** `String(n)` for an unsigned number: its decimal digits, without leading zeros. */
  function Decimal(n: nat): (s: string)
    ensures |s| >= 1 && AllDigits(s)
    ensures (n < 10) == (|s| == 1)
  {
    if n < 10 then [DigitChar(n)] else Decimal(n / 10) + [DigitChar(n % 10)]
  }

  lemma {:induction false} DecimalLengthTwo(n: nat)
    requires 10 <= n < 100
    ensures |Decimal(n)| == 2
  {
    assert Decimal(n) == Decimal(n / 10) + [DigitChar(n % 10)];
  }

  lemma {:induction false} DigitsValueOfDecimal(n: nat)
    ensures DigitsValue(Decimal(n)) == n
  {
    if n >= 10 {
      var s := Decimal(n);
      assert s[..|s| - 1] == Decimal(n / 10);
      DigitsValueOfDecimal(n / 10);
    }
  }

  lemma {:induction false} DigitPrefixOfDigits(d: string, rest: string)
    requires AllDigits(d)
    requires rest == [] || !IsDigit(rest[0])
    ensures DigitPrefixLength(d + rest) == |d|
  {
    if |d| > 0 {
      assert (d + rest)[1..] == d[1..] + rest;
      DigitPrefixOfDigits(d[1..], rest);
    } else {
      assert d + rest == rest;
    }
  }

  /** Reading back what `Decimal` printed gives the number, whatever non-digit text follows. */
  lemma AtolOfDecimal(n: nat, rest: string)
    requires rest == [] || !IsDigit(rest[0])
    ensures Atol(Decimal(n) + rest) == n
  {
    var s := Decimal(n) + rest;
    DigitPrefixOfDigits(Decimal(n), rest);
    assert s[..|Decimal(n)|] == Decimal(n);
    DigitsValueOfDecimal(n);
  }

  // ---------------------------------------------------------------------------
  // C strings inside a character buffer

  /**
   * The C string that starts at `start` in `buf`: the characters up to the
   * first `'\0'`.  A C string that is not terminated inside the buffer is
   * cut at the buffer's end (the model does not read past it).
   */
  function CString(buf: seq<char>, start: nat): (s: string)
    ensures NoChar(s, '\0')
    ensures start + |s| <= |buf| || s == []
    decreases |buf| - start
  {
    if start >= |buf| || buf[start] == '\0' then "" else [buf[start]] + CString(buf, start + 1)
  }

  /** The C strings of `after` are those of `buf + after`, shifted by the length of `buf`. */
  lemma {:induction false} CStringShift(buf: seq<char>, after: seq<char>, k: nat)
    ensures CString(buf + after, |buf| + k) == CString(after, k)
    decreases |after| - k
  {
    if k < |after| {
      assert (buf + after)[|buf| + k] == after[k];
      if after[k] != '\0' {
        CStringShift(buf, after, k + 1);
      }
    }
  }

  /**
   * Reading a C string out of memory where `buf` is followed by `after`: a
   * string that reaches the end of `buf` unterminated goes on with the C
   * string at the start of `after`.
   */
  lemma {:induction false} CStringRunsOn(buf: seq<char>, after: seq<char>, start: nat)
    requires start <= |buf| && start + |CString(buf, start)| == |buf|
    ensures CString(buf + after, start) == CString(buf, start) + CString(after, 0)
    decreases |buf| - start
  {
    if start == |buf| {
      CStringShift(buf, after, 0);
    } else {
      assert (buf + after)[start] == buf[start];
      CStringRunsOn(buf, after, start + 1);
    }
  }

  /** `strcspn(&buf[start], [c])`: how many characters from `start` are neither `c` nor `'\0'`. */
  function Strcspn(buf: seq<char>, start: nat, c: char): (n: nat)
    ensures start + n <= |buf| || n == 0
    ensures forall k :: start <= k < start + n ==> buf[k] != c && buf[k] != '\0'
    ensures start + n < |buf| ==> buf[start + n] == c || buf[start + n] == '\0'
    decreases |buf| - start
  {
    if start >= |buf| || buf[start] == c || buf[start] == '\0' then 0 else 1 + Strcspn(buf, start + 1, c)
  }

  /** A buffer holding `s` at `start`, then `'\0'` or its end, holds `s` as a C string there. */
  lemma {:induction false} CStringAt(buf: seq<char>, start: nat, s: string)
    requires start + |s| <= |buf| && buf[start..start + |s|] == s && NoChar(s, '\0')
    requires start + |s| == |buf| || buf[start + |s|] == '\0'
    ensures CString(buf, start) == s
    decreases |s|
  {
    if s != [] {
      assert buf[start] == s[0];
      assert buf[start + 1..start + 1 + |s[1..]|] == s[1..];
      CStringAt(buf, start + 1, s[1..]);
    }
  }

  /** The span `strcspn` measures when `s`, free of `c` and `'\0'`, is followed by `c` or `'\0'`. */
  lemma {:induction false} StrcspnAt(buf: seq<char>, start: nat, s: string, c: char)
    requires start + |s| < |buf| && buf[start..start + |s|] == s && (buf[start + |s|] == c || buf[start + |s|] == '\0')
    requires NoChar(s, c) && NoChar(s, '\0')
    ensures Strcspn(buf, start, c) == |s|
    decreases |s|
  {
    if s != [] {
      assert buf[start] == s[0];
      assert buf[start + 1..start + 1 + |s[1..]|] == s[1..];
      StrcspnAt(buf, start + 1, s[1..], c);
    }
  }

  /** A copy of `s` terminated by `'\0'` holds the same C strings as `s` itself. */
  lemma {:induction false} CStringOfTerminated(buf: seq<char>, s: seq<char>, start: nat)
    requires |s| < |buf| && buf[..|s|] == s && buf[|s|] == '\0' && start <= |s|
    ensures CString(buf, start) == CString(s, start)
    decreases |s| - start
  {
    if start < |s| {
      assert buf[start] == buf[..|s|][start];
      if s[start] != '\0' {
        CStringOfTerminated(buf, s, start + 1);
      }
    }
  }

  /** Buffers that agree from `start` on hold the same C string there. */
  lemma {:induction false} CStringFrame(a: seq<char>, b: seq<char>, start: nat)
    requires |a| == |b| && forall j :: start <= j < |a| ==> a[j] == b[j]
    ensures CString(a, start) == CString(b, start)
    decreases |a| - start
  {
    if start < |a| && a[start] != '\0' {
      CStringFrame(a, b, start + 1);
    }
  }

  /** Buffers that agree from `start` on give the same `strcspn` there. */
  lemma {:induction false} StrcspnFrame(a: seq<char>, b: seq<char>, start: nat, c: char)
    requires |a| == |b| && forall j :: start <= j < |a| ==> a[j] == b[j]
    ensures Strcspn(a, start, c) == Strcspn(b, start, c)
    decreases |a| - start
  {
    if start < |a| && a[start] != c && a[start] != '\0' {
      StrcspnFrame(a, b, start + 1, c);
    }
  }
}
