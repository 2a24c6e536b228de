/** Semantics of the C library pieces the benchmark relies on: decimal
    rendering as printf prints it, the strtol/atoi scanner, NUL-terminated
    strings, snprintf into a buffer, and C's truncating integer division. */
module CLib {

  datatype Option<T> = None | Some(value: T)

  function Min(a: int, b: int): int { if a <= b then a else b }

  // ---------------------------------------------------------------------------
  // Integer division as C performs it on signed operands (truncation toward zero)

  /** C's `a / b` for b > 0: the quotient truncated toward zero. */
  function CDiv(a: int, b: int): (q: int)
    requires b > 0
    ensures a >= 0 ==> 0 <= a - q * b < b
    ensures a < 0 ==> -b < a - q * b <= 0
  {
    if a >= 0 then a / b else -((-a) / b)
  }

  /** C's `a % b` for b > 0: the remainder that goes with CDiv, with the sign of a. */
  function CMod(a: int, b: int): (m: int)
    requires b > 0
    ensures CDiv(a, b) * b + m == a
    ensures a >= 0 ==> 0 <= m < b
    ensures a < 0 ==> -b < m <= 0
  {
    if a >= 0 then a % b else -((-a) % b)
  }

  // ---------------------------------------------------------------------------
  // Characters and digit strings

  predicate IsDigit(c: char) { '0' <= c <= '9' }

  /** isspace() in the C locale. */
  predicate IsSpace(c: char)
  {
    c == ' ' || c == '\t' || c == '\n' || c == '\U{000B}' || c == '\U{000C}' || c == '\r'
  }

  predicate AllDigits(s: string) { forall i :: 0 <= i < |s| ==> IsDigit(s[i]) }

  predicate NoNul(s: string) { forall i :: 0 <= i < |s| ==> s[i] != '\0' }

  lemma NoNulConcat(a: string, b: string)
    requires NoNul(a) && NoNul(b)
    ensures NoNul(a + b)
  {
    assert forall i :: 0 <= i < |a + b| ==> (a + b)[i] == if i < |a| then a[i] else b[i - |a|];
  }

  function DigitValue(c: char): nat
    requires IsDigit(c)
  {
    (c as int) - ('0' as int)
  }

  function DigitChar(d: nat): (c: char)
    requires d < 10
    ensures IsDigit(c) && DigitValue(c) == d
  {
    (('0' as int) + d) as char
  }

  /** The number a string of decimal digits denotes, most significant first. */
  function DigitsValue(s: string): nat
    requires AllDigits(s)
  {
    if s == [] then 0 else DigitsValue(s[..|s| - 1]) * 10 + DigitValue(s[|s| - 1])
  }

  /** printf's "%zu"/"%ld" of a non-negative number: shortest decimal, no leading zero. */
  function Decimal(n: nat): (r: string)
    ensures 1 <= |r| && AllDigits(r) && NoNul(r)
    ensures DigitsValue(r) == n
    ensures |r| == 1 || r[0] != '0'
    decreases n
  {
    if n < 10 then [DigitChar(n)]
    else
      var r := Decimal(n / 10) + [DigitChar(n % 10)];
      assert r[..|r| - 1] == Decimal(n / 10);
      r
  }

  function Zeros(k: nat): (z: string)
    ensures |z| == k && AllDigits(z) && NoNul(z)
  {
    seq(k, _ => '0')
  }

  /** printf's zero padding: `s` widened to at least `width` characters with leading '0's. */
  function ZeroPad(s: string, width: nat): (r: string)
  {
    if |s| >= width then s else Zeros(width - |s|) + s
  }

  lemma {:induction false} LeadingZerosValue(z: string, s: string)
    requires AllDigits(z) && AllDigits(s)
    requires forall i :: 0 <= i < |z| ==> z[i] == '0'
    ensures AllDigits(z + s) && DigitsValue(z + s) == DigitsValue(s)
    decreases |s|
  {
    assert AllDigits(z + s) by {
      forall i | 0 <= i < |z + s| ensures IsDigit((z + s)[i]) {
        if i < |z| { assert (z + s)[i] == z[i]; } else { assert (z + s)[i] == s[i - |z|]; }
      }
    }
    if s == [] {
      assert z + s == z;
      ZerosValue(z);
    } else {
      var init := s[..|s| - 1];
      assert (z + s)[..|z + s| - 1] == z + init;
      LeadingZerosValue(z, init);
    }
  }

  lemma {:induction false} ZerosValue(z: string)
    requires AllDigits(z)
    requires forall i :: 0 <= i < |z| ==> z[i] == '0'
    ensures DigitsValue(z) == 0
    decreases |z|
  {
    if z != [] {
      ZerosValue(z[..|z| - 1]);
    }
  }

  /** Zero padding keeps the digits' value and gives at least `width` digits. */
  lemma ZeroPadValue(s: string, width: nat)
    requires AllDigits(s)
    ensures AllDigits(ZeroPad(s, width)) && NoNul(ZeroPad(s, width))
    ensures DigitsValue(ZeroPad(s, width)) == DigitsValue(s)
    ensures |ZeroPad(s, width)| == if |s| >= width then |s| else width
  {
    if |s| < width {
      LeadingZerosValue(Zeros(width - |s|), s);
    }
  }

  // ---------------------------------------------------------------------------
  // strtol(s, &end, 10) and atoi(s)

  /** Number of leading characters of `s` that isspace() accepts. */
  function SpaceRun(s: string): (k: nat)
    ensures k <= |s|
    ensures forall i :: 0 <= i < k ==> IsSpace(s[i])
    ensures k == |s| || !IsSpace(s[k])
  {
    if s == [] || !IsSpace(s[0]) then 0 else 1 + SpaceRun(s[1..])
  }

  /** Number of decimal digits in `s` from position `p` on. */
  function DigitRun(s: string, p: nat): (k: nat)
    requires p <= |s|
    ensures p + k <= |s| && AllDigits(s[p..p + k])
    ensures p + k == |s| || !IsDigit(s[p + k])
    decreases |s| - p
  {
    if p == |s| || !IsDigit(s[p]) then 0
    else
      var k := 1 + DigitRun(s, p + 1);
      var run, tail := s[p..p + k], s[p + 1..p + k];
      assert AllDigits(run) by {
        forall j | 0 <= j < k ensures IsDigit(run[j]) {
          if j > 0 {
            assert run[j] == tail[j - 1];
          }
        }
      }
      k
  }

  /** A digit run ends at the first non-digit, so it is the only one of its kind. */
  lemma DigitRunUnique(s: string, p: nat, m: nat)
    requires p + m <= |s| && AllDigits(s[p..p + m])
    requires p + m == |s| || !IsDigit(s[p + m])
    ensures DigitRun(s, p) == m
  {
    var k := DigitRun(s, p);
    if k < m {
      DigitAt(s, p, m, k);
    } else if m < k {
      DigitAt(s, p, k, m);
    }
  }

  lemma DigitAt(s: string, p: nat, m: nat, j: nat)
    requires p + m <= |s| && AllDigits(s[p..p + m]) && j < m
    ensures IsDigit(s[p + j])
  {
    assert s[p..p + m][j] == s[p + j];
  }

  /** What strtol reports: the value and where the scan stopped (0 when no digit was read). */
  datatype Scan = Scan(value: int, end: nat)

  /** Length of the optional '+' or '-' that strtol accepts at position `p`. */
  function SignAt(s: string, p: nat): (k: nat)
    requires p <= |s|
    ensures p + k <= |s|
  {
    if p < |s| && (s[p] == '-' || s[p] == '+') then 1 else 0
  }

  /** Where strtol expects the first digit: after the white space and the sign. */
  function DigitStart(s: string): (k: nat)
    ensures k <= |s|
  {
    SpaceRun(s) + SignAt(s, SpaceRun(s))
  }

  /** Whether the sign strtol skipped is a minus. */
  predicate Negated(s: string)
  {
    SignAt(s, SpaceRun(s)) == 1 && s[SpaceRun(s)] == '-'
  }

  /** strtol(s, &end, 10) without overflow: leading white space, an optional
      sign, then digits; with no digit endptr stays at the start (0). When a
      digit follows the white space and sign, the scan ends after the whole
      digit run and the value is that run's number, negated after a minus. */
  function StrToLong(s: string): (r: Scan)
    ensures r.end <= |s|
    ensures r.end == 0 ==> r.value == 0
    ensures r.end == 0 <==> DigitStart(s) == |s| || !IsDigit(s[DigitStart(s)])
    ensures r.end > 0 ==> DigitStart(s) < r.end && (r.end == |s| || !IsDigit(s[r.end]))
    ensures r.end > 0 ==> AllDigits(s[DigitStart(s)..r.end])
    ensures r.end > 0 ==>
      r.value == if Negated(s) then -(DigitsValue(s[DigitStart(s)..r.end]) as int)
                 else DigitsValue(s[DigitStart(s)..r.end])
  {
    var d := DigitStart(s);
    var n := DigitRun(s, d);
    if n == 0 then Scan(0, 0)
    else
      var magnitude := DigitsValue(s[d..d + n]);
      Scan(if Negated(s) then -(magnitude as int) else magnitude, d + n)
  }

  /** atoi(s): strtol's value, endptr discarded. */
  function Atoi(s: string): int
  {
    StrToLong(s).value
  }

  /** strtol reads back what Decimal printed, and stops right after it. */
  lemma ScanDecimal(n: nat, rest: string)
    requires rest == [] || !IsDigit(rest[0])
    ensures StrToLong(Decimal(n) + rest) == Scan(n, |Decimal(n)|)
  {
    var d := Decimal(n);
    var s := d + rest;
    assert s[0] == d[0];
    assert DigitStart(s) == 0;
    assert s[0..|d|] == d;
    DigitRunUnique(s, 0, |d|);
  }

  /** A leading minus sign negates what strtol reads. */
  lemma ScanNegative(n: nat, rest: string)
    requires rest == [] || !IsDigit(rest[0])
    ensures StrToLong("-" + Decimal(n) + rest) == Scan(-(n as int), 1 + |Decimal(n)|)
  {
    var d := Decimal(n);
    var s := "-" + d + rest;
    assert s[0] == '-';
    assert DigitStart(s) == 1 && Negated(s);
    assert s[1..1 + |d|] == d;
    DigitRunUnique(s, 1, |d|);
  }

  // ---------------------------------------------------------------------------
  // NUL-terminated strings in a character buffer

  /** Index of the first NUL in `b`, or |b| when there is none. */
  function NulIndex(b: seq<char>): (k: nat)
    ensures k <= |b| && NoNul(b[..k])
    ensures k == |b| || b[k] == '\0'
  {
    if b == [] || b[0] == '\0' then 0
    else
      var k := 1 + NulIndex(b[1..]);
      assert b[..k] == [b[0]] + b[1..][..k - 1];
      k
  }

  /** The C string stored in a buffer: everything before the first NUL. */
  function CString(b: seq<char>): (s: string)
    ensures NoNul(s) && |s| <= |b|
  {
    b[..NulIndex(b)]
  }

  /** A buffer that holds `s` followed by a NUL (or by nothing) holds the C string `s`. */
  lemma CStringIs(b: seq<char>, s: string)
    requires NoNul(s) && |s| <= |b| && b[..|s|] == s
    requires |s| == |b| || b[|s|] == '\0'
    ensures CString(b) == s
  {
    assert forall i :: 0 <= i < |s| ==> b[i] == s[i];
  }

  /** snprintf(buf + off, size, "%s", s) on the buffer's contents: the first
      size - 1 characters of s and a terminating NUL, nothing when size is 0.
      (It returns |s|, the length it would have written.) */
  function Snprintf(buf: seq<char>, off: nat, size: nat, s: string): (r: seq<char>)
    requires off + size <= |buf|
    ensures |r| == |buf|
  {
    if size == 0 then buf
    else
      var k := Min(|s|, size - 1);
      seq(|buf|, j requires 0 <= j < |buf| =>
        if off <= j < off + k then s[j - off] else if j == off + k then '\0' else buf[j])
  }

  /** What snprintf leaves in the buffer as a C string, when the part before `off`
      is NUL-free: that part followed by as much of `s` as fits. */
  lemma SnprintfCString(buf: seq<char>, off: nat, size: nat, s: string)
    requires off + size <= |buf| && size > 0
    requires NoNul(buf[..off]) && NoNul(s)
    ensures Snprintf(buf, off, size, s)[..off] == buf[..off]
    ensures CString(Snprintf(buf, off, size, s)) == buf[..off] + s[..Min(|s|, size - 1)]
  {
    var r := Snprintf(buf, off, size, s);
    var t := buf[..off] + s[..Min(|s|, size - 1)];
    assert r[..|t|] == t;
    CStringIs(r, t);
  }

  /** When `s` fits (|s| < size), snprintf puts all of it at `off`, keeps what was
      before `off`, and puts a NUL right after it. */
  lemma SnprintfFits(buf: seq<char>, off: nat, size: nat, s: string)
    requires off + size <= |buf| && |s| < size
    ensures Snprintf(buf, off, size, s)[..off + |s|] == buf[..off] + s
    ensures Snprintf(buf, off, size, s)[off + |s|] == '\0'
  {
    var r := Snprintf(buf, off, size, s);
    assert forall j :: 0 <= j < off + |s| ==> r[j] == (buf[..off] + s)[j];
  }

  /** Each character of snprintf's result. */
  lemma SnprintfAt(buf: seq<char>, off: nat, size: nat, s: string)
    requires off + size <= |buf| && size > 0
    ensures var k := Min(|s|, size - 1);
            forall j :: 0 <= j < |buf| ==>
              Snprintf(buf, off, size, s)[j] == (if off <= j < off + k then s[j - off] else if j == off + k then '\0' else buf[j])
  {
  }

  /** The characters of `t` copied into `buf` from `off` on. */
  method CopyInto(buf: array<char>, off: nat, t: string)
    requires off + |t| <= buf.Length
    modifies buf
    ensures forall j :: 0 <= j < buf.Length ==>
              buf[j] == if off <= j < off + |t| then t[j - off] else old(buf[j])
  {
    for i := 0 to |t|
      invariant forall j :: 0 <= j < buf.Length ==>
        buf[j] == if off <= j < off + i then t[j - off] else old(buf[j])
    {
      buf[off + i] := t[i];
    }
  }

  /** snprintf into a character array; returns the length of `s` as snprintf does. */
  method WriteString(buf: array<char>, off: nat, size: nat, s: string) returns (n: nat)
    requires off + size <= buf.Length
    modifies buf
    ensures buf[..] == Snprintf(old(buf[..]), off, size, s)
    ensures n == |s|
  {
    n := |s|;
    if size == 0 {
      return;
    }
    ghost var before := buf[..];
    var k := Min(|s|, size - 1);
    CopyInto(buf, off, s[..k]);
    buf[off + k] := '\0';
    SnprintfAt(before, off, size, s);
    assert forall j :: 0 <= j < buf.Length ==> buf[j] == Snprintf(before, off, size, s)[j];
    assert buf[..] == Snprintf(before, off, size, s);
  }
}
