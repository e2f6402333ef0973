// C-string and printf/strtol building blocks shared by every module of the
// firmware model.  Strings are `seq<char>`; a char stands for one byte of the
// firmware's 8-bit character buffers.

module Text {

  datatype Option<T> = None | Some(value: T)

  const NUL: char := '\0'

  // Unsigned long on the Cortex-M0+ target is 32 bits wide.
  const ULONG_MAX: int := 0xFFFF_FFFF
  const LONG_MAX: int := 0x7FFF_FFFF
  const LONG_MIN: int := -0x8000_0000

  predicate IsU32(x: int) { 0 <= x <= ULONG_MAX }

  /** `(uint32_t)x`: reduction modulo 2^32. */
  function U32(x: int): (r: nat)
    ensures IsU32(r)
    ensures IsU32(x) ==> r == x
  {
    x % 0x1_0000_0000
  }

  /** `(int)n` for a 32-bit size_t n: values above LONG_MAX wrap to negatives. */
  function SizeAsInt(n: nat): (r: int)
    requires IsU32(n)
    ensures LONG_MIN <= r <= LONG_MAX
    ensures n <= LONG_MAX ==> r == n
    ensures n > LONG_MAX ==> r < 0
  {
    if n <= LONG_MAX then n else n - 0x1_0000_0000
  }

  /** The character at index i of a NUL-terminated buffer holding s. */
  function At(s: string, i: nat): (c: char)
    ensures i < |s| ==> c == s[i]
    ensures i >= |s| ==> c == NUL
  {
    if i < |s| then s[i] else NUL
  }

  /** The C string held by a buffer: everything before the first NUL. */
  function CStr(s: string): (r: string)
    ensures |r| <= |s| && r == s[..|r|]
    ensures NUL !in r
    ensures |r| < |s| ==> s[|r|] == NUL
  {
    if |s| == 0 || s[0] == NUL then [] else [s[0]] + CStr(s[1..])
  }

  /** strncpy into a zeroed buffer of size n + 1, read back as a C string. */
  function Truncate(s: string, n: nat): (r: string)
    ensures |r| == if |s| <= n then |s| else n
    ensures r == s[..|r|]
  {
    if |s| <= n then s else s[..n]
  }

  // ---------------------------------------------------------------- search

  predicate OccursAt(hay: string, pat: string, i: nat)
  {
    i + |pat| <= |hay| && hay[i..i + |pat|] == pat
  }

  /** strstr starting at `from`: the first occurrence of pat at or after from. */
  function IndexOfFrom(hay: string, pat: string, from: nat): (r: Option<nat>)
    ensures r.Some? ==> from <= r.value && OccursAt(hay, pat, r.value)
    ensures r.Some? ==> forall j :: from <= j < r.value ==> !OccursAt(hay, pat, j)
    ensures r.None? ==> forall j :: from <= j ==> !OccursAt(hay, pat, j)
    decreases |hay| - from
  {
    if from + |pat| > |hay| then None
    else if OccursAt(hay, pat, from) then Some(from)
    else IndexOfFrom(hay, pat, from + 1)
  }

  function IndexOf(hay: string, pat: string): (r: Option<nat>)
    ensures r.Some? ==> OccursAt(hay, pat, r.value)
    ensures r.Some? ==> forall j :: 0 <= j < r.value ==> !OccursAt(hay, pat, j)
    ensures r.None? ==> forall j :: 0 <= j ==> !OccursAt(hay, pat, j)
  {
    IndexOfFrom(hay, pat, 0)
  }

  /** The first occurrence of pat is at p when it occurs there and nowhere before. */
  lemma IndexOfIs(hay: string, pat: string, p: nat)
    requires OccursAt(hay, pat, p)
    requires forall j :: 0 <= j < p ==> !OccursAt(hay, pat, j)
    ensures IndexOf(hay, pat) == Some(p)
  {
  }

  /** strchr starting at `from`: the first index at or after from holding c. */
  function FindChar(s: string, c: char, from: nat): (r: Option<nat>)
    ensures r.Some? ==> from <= r.value < |s| && s[r.value] == c
    ensures r.Some? ==> forall j :: from <= j < r.value ==> s[j] != c
    ensures r.None? ==> forall j :: from <= j < |s| ==> s[j] != c
    decreases |s| - from
  {
    if from >= |s| then None
    else if s[from] == c then Some(from)
    else FindChar(s, c, from + 1)
  }

  /** The first c at or after from is at e when e holds c and nothing before it does. */
  lemma FindCharIs(s: string, c: char, from: nat, e: nat)
    requires from <= e < |s| && s[e] == c
    requires forall j :: from <= j < e ==> s[j] != c
    ensures FindChar(s, c, from) == Some(e)
  {
  }

  /** The first index at or after i that is not a blank (' '). */
  function SkipBlanks(s: string, i: nat): (j: nat)
    ensures i <= j && At(s, j) != ' '
    ensures i <= |s| ==> j <= |s|
    ensures forall k :: i <= k < j ==> k < |s| && s[k] == ' '
    decreases |s| - i
  {
    if i < |s| && s[i] == ' ' then SkipBlanks(s, i + 1) else i
  }

  // ---------------------------------------------------------------- digits

  predicate IsDigit(c: char) { '0' <= c <= '9' }

  predicate AllDigits(s: string) { forall i :: 0 <= i < |s| ==> IsDigit(s[i]) }

  function DigitChar(d: nat): (c: char)
    requires d < 10
    ensures IsDigit(c) && c as int - '0' as int == d
  {
    ('0' as int + d) as char
  }

  /** The value of a run of decimal digits. */
  function DigitsValue(s: string): (v: nat)
    requires AllDigits(s)
  {
    if |s| == 0 then 0
    else DigitsValue(s[..|s| - 1]) * 10 + (s[|s| - 1] as int - '0' as int)
  }

  /** printf "%u": the shortest decimal rendering of n. */
  function Decimal(n: nat): (r: string)
    ensures 1 <= |r| && AllDigits(r)
    ensures r[0] == '0' ==> n == 0
    decreases n
  {
    if n < 10 then [DigitChar(n)] else Decimal(n / 10) + [DigitChar(n % 10)]
  }

  lemma {:induction false} DecimalValue(n: nat)
    ensures DigitsValue(Decimal(n)) == n
    decreases n
  {
    if n >= 10 {
      DecimalValue(n / 10);
      var s := Decimal(n);
      assert s[..|s| - 1] == Decimal(n / 10);
    }
  }

  function Pow10(k: nat): (p: nat)
    ensures p >= 1
  {
    if k == 0 then 1 else 10 * Pow10(k - 1)
  }

  /** A value below 10^k prints in at most k digits. */
  lemma {:induction false} DecimalLength(n: nat, k: nat)
    requires 1 <= k && n < Pow10(k)
    ensures |Decimal(n)| <= k
    decreases n
  {
    if n >= 10 {
      assert k > 1;
      DecimalLength(n / 10, k - 1);
    }
  }

  /** printf "%d". */
  function SignedDecimal(x: int): (r: string)
    ensures 1 <= |r|
    ensures (r[0] == '-') == (x < 0)
  {
    if x < 0 then "-" + Decimal(-x) else Decimal(x)
  }

  // ---------------------------------------------------------------- hex

  predicate IsLowerHex(c: char) { '0' <= c <= '9' || 'a' <= c <= 'f' }

  function HexDigit(d: nat): (c: char)
    requires d < 16
    ensures IsLowerHex(c)
  {
    if d < 10 then ('0' as int + d) as char else ('a' as int + d - 10) as char
  }

  function HexDigitValue(c: char): (d: nat)
    requires IsLowerHex(c)
    ensures d < 16
  {
    if c <= '9' then c as int - '0' as int else c as int - 'a' as int + 10
  }

  /** The n lowest hex digits of x, most significant first, zero-padded. */
  function HexN(x: nat, n: nat): (r: string)
    ensures |r| == n
    ensures forall i :: 0 <= i < |r| ==> IsLowerHex(r[i])
  {
    if n == 0 then [] else HexN(x / 16, n - 1) + [HexDigit(x % 16)]
  }

  function HexValue(s: string): (v: nat)
    requires forall i :: 0 <= i < |s| ==> IsLowerHex(s[i])
  {
    if |s| == 0 then 0 else HexValue(s[..|s| - 1]) * 16 + HexDigitValue(s[|s| - 1])
  }

  function Pow16(n: nat): (p: nat)
    ensures p >= 1
  {
    if n == 0 then 1 else 16 * Pow16(n - 1)
  }

  lemma {:induction false} HexNValue(x: nat, n: nat)
    ensures HexValue(HexN(x, n)) == x % Pow16(n)
  {
    if n > 0 {
      HexNValue(x / 16, n - 1);
      var s := HexN(x, n);
      var p := Pow16(n - 1);
      assert s[..|s| - 1] == HexN(x / 16, n - 1);
      assert s[|s| - 1] == HexDigit(x % 16);
      assert HexDigitValue(HexDigit(x % 16)) == x % 16;
      assert HexValue(s) == (x / 16) % p * 16 + x % 16;
      ModDiv16(x, p);
    }
  }

  lemma ModDiv16(x: nat, p: nat)
    requires p >= 1
    ensures (x / 16) % p * 16 + x % 16 == x % (16 * p)
  {
    var q, d := x / 16, x % 16;
    var a, b := q / p, q % p;
    var m := 16 * p;
    assert x == 16 * q + d;
    assert q == p * a + b;
    assert x == m * a + (16 * b + d) by {
      assert 16 * (p * a) == m * a;
    }
    ModUnique(x, m, a, 16 * b + d);
  }

  lemma {:induction false} MulAtLeast(m: int, k: int)
    requires m > 0 && k >= 1
    ensures m * k >= m
    decreases k
  {
    if k > 1 {
      MulAtLeast(m, k - 1);
      assert m * k == m * (k - 1) + m;
    }
  }

  /** The remainder is the unique r with x == m * a + r and 0 <= r < m. */
  lemma ModUnique(x: int, m: int, a: int, r: int)
    requires m > 0 && x == m * a + r && 0 <= r < m
    ensures x % m == r
  {
    var a', r' := x / m, x % m;
    assert x == m * a' + r';
    assert 0 <= r' < m;
    var k := a - a';
    assert m * k == r' - r by {
      assert m * k == m * a - m * a';
    }
    if k >= 1 {
      MulAtLeast(m, k);
    } else if k <= -1 {
      MulAtLeast(m, -k);
    }
    assert k == 0;
  }

  /** printf "%08x" of a 32-bit value. */
  function Hex8(x: nat): (r: string)
    requires IsU32(x)
    ensures |r| == 8 && forall i :: 0 <= i < 8 ==> IsLowerHex(r[i])
  {
    HexN(x, 8)
  }

  /** Distinct 32-bit values never share a "%08x" rendering. */
  lemma Hex8RoundTrip(x: nat)
    requires IsU32(x)
    ensures HexValue(Hex8(x)) == x
  {
    HexNValue(x, 8);
    Pow16Eight();
    assert U32(x) == x;
  }

  /** Eight hex digits hold exactly the 32-bit values. */
  lemma Pow16Eight()
    ensures Pow16(8) == 0x1_0000_0000
  {
    assert Pow16(1) == 16;
    assert Pow16(2) == 0x100;
    assert Pow16(3) == 0x1000;
    assert Pow16(4) == 0x1_0000;
    assert Pow16(5) == 0x10_0000;
    assert Pow16(6) == 0x100_0000;
    assert Pow16(7) == 0x1000_0000;
  }

  lemma Hex8Injective(x: nat, y: nat)
    requires IsU32(x) && IsU32(y) && Hex8(x) == Hex8(y)
    ensures x == y
  {
    Hex8RoundTrip(x);
    Hex8RoundTrip(y);
  }

  // ---------------------------------------------------------------- strtol

  /** C isspace in the "C" locale. */
  predicate IsSpace(c: char)
  {
    c == ' ' || c == '\t' || c == '\n' || c == '\r' || c as int == 11 || c as int == 12
  }

  function SkipSpaces(s: string, i: nat): (j: nat)
    ensures i <= j && !IsSpace(At(s, j))
    ensures i <= |s| ==> j <= |s|
    ensures forall k :: i <= k < j ==> IsSpace(At(s, k))
    decreases |s| - i
  {
    if i < |s| && IsSpace(s[i]) then SkipSpaces(s, i + 1) else i
  }

  /** The end of the run of digits that starts at i. */
  function DigitRun(s: string, i: nat): (j: nat)
    ensures i <= j && !IsDigit(At(s, j))
    ensures i <= |s| ==> j <= |s|
    ensures forall k :: i <= k < j ==> IsDigit(At(s, k))
    decreases |s| - i
  {
    if i < |s| && IsDigit(s[i]) then DigitRun(s, i + 1) else i
  }

  /**
   * The pieces strtol and strtoul find in s: the sign, the magnitude of the
   * digit run and the index just past it; `end == 0` means "no conversion".
   */
  datatype Scan = Scan(negative: bool, magnitude: nat, end: nat)

  function ScanNumber(s: string): (r: Scan)
    ensures r.end <= |s|
    ensures r.end == 0 ==> r.magnitude == 0 && !r.negative
  {
    var i := SkipSpaces(s, 0);
    var signed := At(s, i) == '-' || At(s, i) == '+';
    var j := if signed then i + 1 else i;
    var k := DigitRun(s, j);
    if k == j then Scan(false, 0, 0)
    else
      assert j <= k <= |s|;
      assert AllDigits(s[j..k]) by {
        forall t | 0 <= t < k - j ensures IsDigit(s[j..k][t]) {
          assert IsDigit(At(s, j + t));
        }
      }
      Scan(At(s, i) == '-', DigitsValue(s[j..k]), k)
  }

  /** strtol(s, &end, 10) with a 32-bit long: out-of-range values saturate. */
  function StrToLong(s: string): (r: (int, nat))
    ensures LONG_MIN <= r.0 <= LONG_MAX
    ensures r.1 <= |s|
    ensures r.1 == 0 ==> r.0 == 0
  {
    var sc := ScanNumber(s);
    var v: int := if sc.negative then -(sc.magnitude as int) else sc.magnitude;
    (if v < LONG_MIN then LONG_MIN else if v > LONG_MAX then LONG_MAX else v, sc.end)
  }

  /**
   * strtoul(s, &end, 10) with a 32-bit unsigned long: a magnitude above
   * ULONG_MAX saturates, a leading '-' negates modulo 2^32.
   */
  function StrToULong(s: string): (r: (nat, nat))
    ensures IsU32(r.0)
    ensures r.1 <= |s|
    ensures r.1 == 0 ==> r.0 == 0
  {
    var sc := ScanNumber(s);
    if sc.magnitude > ULONG_MAX then (ULONG_MAX, sc.end)
    else if sc.negative then (U32(-(sc.magnitude as int)), sc.end)
    else (sc.magnitude, sc.end)
  }

  lemma {:induction false} DigitRunTo(s: string, i: nat, k: nat)
    requires i <= k <= |s| && AllDigits(s[i..k]) && !IsDigit(At(s, k))
    ensures DigitRun(s, i) == k
    decreases k - i
  {
    if i < k {
      assert s[i] == s[i..k][0];
      assert s[i + 1..k] == s[i..k][1..];
      DigitRunTo(s, i + 1, k);
    }
  }

  /** ScanNumber when its digit run, after blanks and an optional sign, is s[j..k]. */
  lemma ScanNumberAt(s: string, j: nat, k: nat)
    requires var i := SkipSpaces(s, 0);
      j == (if At(s, i) == '-' || At(s, i) == '+' then i + 1 else i)
    requires DigitRun(s, j) == k && j < k && AllDigits(s[j..k])
    ensures ScanNumber(s) == Scan(At(s, SkipSpaces(s, 0)) == '-', DigitsValue(s[j..k]), k)
  {
  }

  /** Scanning text that starts with "-"? and the digits of m, then a non-digit. */
  lemma ScanDecimal(s: string, negative: bool, m: nat)
    requires var t := (if negative then "-" else "") + Decimal(m);
      |t| <= |s| && s[..|t|] == t && !IsDigit(At(s, |t|))
    ensures ScanNumber(s) == Scan(negative, m, |(if negative then "-" else "") + Decimal(m)|)
  {
    var start := if negative then 1 else 0;
    var digits := Decimal(m);
    var t := (if negative then "-" else "") + digits;
    assert s[start..|t|] == digits;
    assert IsDigit(digits[0]);
    assert s[0] == if negative then '-' else digits[0];
    assert |s| > 0 && At(s, 0) == s[0];
    assert !IsSpace(s[0]);
    assert SkipSpaces(s, 0) == 0;
    assert At(s, 0) == '-' <==> negative;
    assert At(s, 0) != '+';
    DigitRunTo(s, start, |t|);
    DecimalValue(m);
    ScanNumberAt(s, start, |t|);
  }

  /** strtol reads back what "%d" printed when a non-digit follows it. */
  lemma StrToLongDecimalPrefix(s: string, x: int)
    requires LONG_MIN <= x <= LONG_MAX
    requires |SignedDecimal(x)| <= |s| && s[..|SignedDecimal(x)|] == SignedDecimal(x)
    requires !IsDigit(At(s, |SignedDecimal(x)|))
    ensures StrToLong(s) == (x, |SignedDecimal(x)|)
  {
    var negative := x < 0;
    var m: nat := if negative then -x else x;
    assert SignedDecimal(x) == (if negative then "-" else "") + Decimal(m);
    ScanDecimal(s, negative, m);
    var sc := ScanNumber(s);
    assert sc == Scan(negative, m, |SignedDecimal(x)|);
    assert (if sc.negative then -(sc.magnitude as int) else sc.magnitude) == x;
  }

  /** strtol reads back what "%d" printed, up to the end of the text. */
  lemma StrToLongDecimal(x: int)
    requires LONG_MIN <= x <= LONG_MAX
    ensures StrToLong(SignedDecimal(x)) == (x, |SignedDecimal(x)|)
  {
    StrToLongDecimalPrefix(SignedDecimal(x), x);
  }

  /** strtoul reads back what "%u" printed. */
  lemma StrToULongDecimal(n: nat)
    requires IsU32(n)
    ensures StrToULong(Decimal(n)) == (n, |Decimal(n)|)
  {
    assert Decimal(n)[..|Decimal(n)|] == Decimal(n);
    ScanDecimal(Decimal(n), false, n);
  }

  // ---------------------------------------------------------------- strcmp

  /** strcmp(a, b) < 0 on NUL-free strings. */
  predicate StrLess(a: string, b: string)
  {
    if |a| == 0 then |b| > 0
    else if |b| == 0 then false
    else if a[0] == b[0] then StrLess(a[1..], b[1..])
    else a[0] < b[0]
  }

  /** strcmp(a, b) <= 0. */
  predicate StrLessEq(a: string, b: string) { a == b || StrLess(a, b) }

  lemma {:induction false} StrLessIrreflexive(a: string)
    ensures !StrLess(a, a)
  {
    if |a| > 0 { StrLessIrreflexive(a[1..]); }
  }

  lemma {:induction false} StrLessTransitive(a: string, b: string, c: string)
    requires StrLess(a, b) && StrLess(b, c)
    ensures StrLess(a, c)
  {
    if |a| > 0 && |b| > 0 && |c| > 0 && a[0] == b[0] && b[0] == c[0] {
      StrLessTransitive(a[1..], b[1..], c[1..]);
    }
  }

  lemma {:induction false} StrLessTotal(a: string, b: string)
    ensures a == b || StrLess(a, b) || StrLess(b, a)
  {
    if |a| > 0 && |b| > 0 && a[0] == b[0] {
      StrLessTotal(a[1..], b[1..]);
      if a[1..] == b[1..] {
        assert a == [a[0]] + a[1..] && b == [b[0]] + b[1..];
      }
    }
  }

  lemma StrLessAsymmetric(a: string, b: string)
    requires StrLess(a, b)
    ensures !StrLess(b, a) && a != b
  {
    if StrLess(b, a) {
      StrLessTransitive(a, b, a);
      StrLessIrreflexive(a);
    }
    StrLessIrreflexive(a);
  }

  lemma StrLessEqTransitive(a: string, b: string, c: string)
    requires StrLessEq(a, b) && StrLessEq(b, c)
    ensures StrLessEq(a, c)
  {
    if a != b && b != c { StrLessTransitive(a, b, c); }
  }

  // ---------------------------------------------------------------- strcasecmp

  function ToLower(c: char): (l: char)
    ensures 'A' <= c <= 'Z' ==> l as int == c as int + 32
    ensures !('A' <= c <= 'Z') ==> l == c
  {
    if 'A' <= c <= 'Z' then (c as int + 32) as char else c
  }

  /** strcasecmp(a, b) == 0 (ASCII case folding). */
  predicate EqualsIgnoreCase(a: string, b: string)
  {
    |a| == |b| && forall i :: 0 <= i < |a| ==> ToLower(a[i]) == ToLower(b[i])
  }

  // ---------------------------------------------------------------- JSON text

  /** A JSON string literal of a value that holds no '"'. */
  function Quote(s: string): string
  {
    "\"" + s + "\""
  }

  /** Items separated by ','. */
  function JoinComma(items: seq<string>): (r: string)
    ensures |items| == 0 ==> r == ""
    ensures |items| == 1 ==> r == items[0]
  {
    if |items| == 0 then ""
    else if |items| == 1 then items[0]
    else JoinComma(items[..|items| - 1]) + "," + items[|items| - 1]
  }

  /** Appending an item adds a separator only when there is one already. */
  lemma JoinCommaSnoc(items: seq<string>, last: string)
    ensures JoinComma(items + [last]) == if |items| == 0 then last else JoinComma(items) + "," + last
  {
    assert (items + [last])[..|items|] == items;
  }

  /** A shorter list of items never joins to a longer text. */
  lemma {:induction false} JoinCommaPrefixLength(items: seq<string>, k: nat)
    requires k <= |items|
    ensures |JoinComma(items[..k])| <= |JoinComma(items)|
    decreases |items| - k
  {
    if k < |items| {
      JoinCommaPrefixLength(items, k + 1);
      JoinCommaSnoc(items[..k], items[k]);
      assert items[..k] + [items[k]] == items[..k + 1];
      if k + 1 == |items| { assert items[..k + 1] == items; }
    } else {
      assert items[..k] == items;
    }
  }

  /** Element-wise Quote. */
  function QuoteAll(items: seq<string>): (r: seq<string>)
    ensures |r| == |items|
  {
    if |items| == 0 then [] else QuoteAll(items[..|items| - 1]) + [Quote(items[|items| - 1])]
  }

  /** QuoteAll quotes each item in place. */
  lemma {:induction false} QuoteAllAt(items: seq<string>, k: nat)
    requires k < |items|
    ensures QuoteAll(items)[k] == Quote(items[k])
  {
    if k < |items| - 1 {
      QuoteAllAt(items[..|items| - 1], k);
    }
  }

  /** Quoting the tail is the tail of the quoting. */
  lemma QuoteAllTail(items: seq<string>)
    requires |items| >= 1
    ensures QuoteAll(items)[1..] == QuoteAll(items[1..])
  {
    forall k | 0 <= k < |items| - 1
      ensures QuoteAll(items)[1..][k] == QuoteAll(items[1..])[k]
    {
      QuoteAllAt(items, k + 1);
      QuoteAllAt(items[1..], k);
    }
  }

  /** Concatenation regrouped: the separator and the tail move together. */
  lemma ConcatAssoc(w: string, x: string, y: string, z: string)
    ensures w + x + y + z == w + (x + (y + z))
  {
  }

  /** A slice that spells x + y spells x and then y. */
  lemma SliceParts(s: string, i: nat, x: string, y: string)
    requires i + |x| + |y| <= |s| && s[i..i + |x| + |y|] == x + y
    ensures s[i..i + |x|] == x && s[i + |x|..i + |x| + |y|] == y
  {
    var w := s[i..i + |x| + |y|];
    assert s[i..i + |x|] == w[..|x|];
    assert s[i + |x|..i + |x| + |y|] == w[|x|..];
  }

  /** The joined text read from the front: the first item, then the rest. */
  lemma {:induction false} JoinCommaFront(items: seq<string>)
    requires |items| >= 2
    ensures JoinComma(items) == items[0] + "," + JoinComma(items[1..])
    decreases |items|
  {
    var n := |items|;
    var init := items[..n - 1];
    assert items == init + [items[n - 1]];
    JoinCommaSnoc(init, items[n - 1]);
    if n == 2 {
      assert items[1..] == [items[1]];
      assert init == [items[0]];
    } else {
      JoinCommaFront(init);
      var mid := items[1..][..n - 2];
      assert init[1..] == mid;
      assert items[1..] == mid + [items[n - 1]];
      JoinCommaSnoc(mid, items[n - 1]);
    }
  }
}
