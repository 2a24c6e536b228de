/** The benchmark's conversions between numbers and text: memory sizes with a
    k/m/g suffix, sizes shown in B/kB/MB/GB, the CPU frequency shown in GHz, and
    the acceptance test for a number read from a sysfs file. */
module Sizes {
  import opened CLib

  const KiB: nat := 1024
  const MiB: nat := 1024 * 1024
  const GiB: nat := 1024 * 1024 * 1024

  // ---------------------------------------------------------------------------
  // parse_size

  predicate IsSizeSuffix(c: char)
  {
    c == 'k' || c == 'K' || c == 'm' || c == 'M' || c == 'g' || c == 'G'
  }

  /** The multiplier the last character of a size string selects. */
  function Multiplier(c: char): (m: nat)
    ensures IsSizeSuffix(c) <==> m > 1
    ensures (c == 'k' || c == 'K') <==> m == KiB
    ensures (c == 'm' || c == 'M') <==> m == MiB
    ensures (c == 'g' || c == 'G') <==> m == GiB
  {
    if c == 'k' || c == 'K' then KiB
    else if c == 'm' || c == 'M' then MiB
    else if c == 'g' || c == 'G' then GiB
    else 1
  }

  /** parse_size: the last character alone picks the multiplier, and it is
      always dropped before atoi reads the rest. */
  function ParseSize(s: string): int
    requires |s| >= 1
  {
    Atoi(s[..|s| - 1]) * Multiplier(s[|s| - 1])
  }

  /** "32K" is 32 KiB, "4M" 4 MiB, "1g" 1 GiB. */
  lemma ParseSizeSuffixed(n: nat, c: char)
    requires IsSizeSuffix(c)
    ensures ParseSize(Decimal(n) + [c]) == n * Multiplier(c)
  {
    var s := Decimal(n) + [c];
    assert s[..|s| - 1] == Decimal(n) + [];
    ScanDecimal(n, []);
  }

  /** Without a suffix the last digit is still dropped: "64" gives 6. */
  lemma ParseSizeUnsuffixed(n: nat)
    requires n >= 10
    ensures ParseSize(Decimal(n)) == n / 10
  {
    var s := Decimal(n);
    assert s[..|s| - 1] == Decimal(n / 10) + [] && IsDigit(s[|s| - 1]) by {
      assert s == Decimal(n / 10) + [DigitChar(n % 10)];
    }
    ScanDecimal(n / 10, []);
    ParseSizeOfDigitEnd(s, n / 10);
  }

  lemma ParseSizeOfDigitEnd(s: string, v: int)
    requires |s| >= 1 && IsDigit(s[|s| - 1]) && Atoi(s[..|s| - 1]) == v
    ensures ParseSize(s) == v
  {
  }

  /** A single character has nothing left for atoi: the result is 0. */
  lemma ParseSizeSingle(c: char)
    ensures ParseSize([c]) == 0
  {
    assert [c][..0] == [];
  }

  // ---------------------------------------------------------------------------
  // human_readable_size

  datatype Unit = Bytes | KiloBytes | MegaBytes | GigaBytes

  function UnitName(u: Unit): string
  {
    match u
    case Bytes => "B"
    case KiloBytes => "kB"
    case MegaBytes => "MB"
    case GigaBytes => "GB"
  }

  function UnitScale(u: Unit): (k: nat)
    ensures k >= 1
  {
    match u
    case Bytes => 1
    case KiloBytes => KiB
    case MegaBytes => MiB
    case GigaBytes => GiB
  }

  /** The unit human_readable_size picks: the largest one whose scale does not
      exceed the size (bytes for sizes under 1024). */
  function UnitFor(size: nat): (u: Unit)
    ensures u == Bytes || UnitScale(u) <= size
    ensures u == GigaBytes || size < UnitScale(u) * 1024
  {
    if size < KiB then Bytes
    else if size < MiB then KiloBytes
    else if size < GiB then MegaBytes
    else GigaBytes
  }

  /** human_readable_size: the size divided (truncating) by the unit's scale, a space, the unit. */
  function HumanReadableSize(size: nat): (s: string)
    ensures NoNul(s) && |s| >= 3
  {
    var u := UnitFor(size);
    NoNulConcat(Decimal(size / UnitScale(u)), " ");
    NoNulConcat(Decimal(size / UnitScale(u)) + " ", UnitName(u));
    Decimal(size / UnitScale(u)) + " " + UnitName(u)
  }

  /** The shown number is the size truncated to whole units: below 1024 for
      every unit but GB, at least 1 once a unit above bytes is chosen, and it
      is what atoi reads back from the text. */
  lemma HumanReadableSizeShows(size: nat)
    ensures var u := UnitFor(size);
            var shown := size / UnitScale(u);
            && HumanReadableSize(size) == Decimal(shown) + " " + UnitName(u)
            && shown * UnitScale(u) <= size < (shown + 1) * UnitScale(u)
            && (u != GigaBytes ==> shown < 1024)
            && (u != Bytes ==> shown >= 1)
            && Atoi(HumanReadableSize(size)) == shown
  {
    var u := UnitFor(size);
    var shown := size / UnitScale(u);
    UnitBounds(size, UnitScale(u));
    assert Atoi(HumanReadableSize(size)) == shown by {
      assert Decimal(shown) + " " + UnitName(u) == Decimal(shown) + (" " + UnitName(u));
      ScanDecimal(shown, " " + UnitName(u));
    }
  }

  /** Truncating division by the unit's scale. */
  lemma UnitBounds(size: nat, scale: nat)
    requires scale >= 1
    ensures (size / scale) * scale <= size < (size / scale + 1) * scale
    ensures size < scale * 1024 ==> size / scale < 1024
    ensures scale <= size ==> size / scale >= 1
  {
    var q := size / scale;
    assert q * scale + size % scale == size;
  }

  // ---------------------------------------------------------------------------
  // cpu_freq_to_str

  /** printf "%ld". */
  function FormatLong(v: int): string
  {
    if v < 0 then "-" + Decimal(-v) else Decimal(v)
  }

  /** printf "%03ld": zero padded to three characters, the sign counted in the width. */
  function FormatLong03(v: int): string
  {
    if v < 0 then "-" + ZeroPad(Decimal(-v), 2) else ZeroPad(Decimal(v), 3)
  }

  /** cpu_freq_to_str as written: the whole gigahertz, a point, then cpu_freq / 1000
      (the whole frequency in megahertz, not its remainder below a gigahertz). */
  function CpuFreqToStr(freqKhz: int): string
  {
    var gigahz := CDiv(freqKhz, 1000 * 1000);
    var megahz := CDiv(freqKhz, 1000);
    FormatLong(gigahz) + "." + FormatLong03(megahz) + " GHz"
  }

  /** What cpu_freq_to_str shows for a non-negative frequency: after the point
      comes the whole frequency in megahertz, not its part below a gigahertz.
      From 1 GHz on that text has four digits or more, so the output never
      equals the intended one: 2400000 kHz reads "2." followed by 2400. */
  lemma CpuFreqToStrShowsWholeMegahertz(freqKhz: nat)
    ensures var mhz := ZeroPad(Decimal(freqKhz / 1000), 3);
            && CpuFreqToStr(freqKhz) == Decimal(freqKhz / (1000 * 1000)) + "." + mhz + " GHz"
            && AllDigits(mhz) && DigitsValue(mhz) == freqKhz / 1000
            && (freqKhz >= 1000 * 1000 ==> |mhz| >= 4 && CpuFreqToStr(freqKhz) != CpuFreqText(freqKhz))
  {
    var m := freqKhz / 1000;
    var mhz := ZeroPad(Decimal(m), 3);
    ZeroPadValue(Decimal(m), 3);
    if freqKhz >= 1000 * 1000 {
      DecimalLengthAtLeast(m);
      CpuFreqTextReadsBack(freqKhz);
      var head := Decimal(freqKhz / (1000 * 1000)) + ".";
      assert |CpuFreqToStr(freqKhz)| == |head| + |mhz| + 4;
      assert |CpuFreqText(freqKhz)| == |head| + 3 + 4;
    }
  }

  lemma {:induction false} DecimalLengthAtLeast(n: nat)
    ensures n >= 10 ==> |Decimal(n)| >= 2
    ensures n >= 100 ==> |Decimal(n)| >= 3
    ensures n >= 1000 ==> |Decimal(n)| >= 4
  {
    if n >= 10 {
      DecimalLengthAtLeast(n / 10);
    }
  }

  /** The frequency as cpu_freq_to_str evidently means it: whole gigahertz, then
      the megahertz below the gigahertz in exactly three digits. */
  function CpuFreqText(freqKhz: nat): string
  {
    Decimal(freqKhz / (1000 * 1000)) + "." + ZeroPad(Decimal(freqKhz / 1000 % 1000), 3) + " GHz"
  }

  /** The text after the point always has three digits, and together with the
      gigahertz it gives back the frequency in whole megahertz. */
  lemma CpuFreqTextReadsBack(freqKhz: nat)
    ensures var mhz := ZeroPad(Decimal(freqKhz / 1000 % 1000), 3);
            && CpuFreqText(freqKhz) == Decimal(freqKhz / (1000 * 1000)) + "." + mhz + " GHz"
            && |mhz| == 3 && AllDigits(mhz)
            && DigitsValue(Decimal(freqKhz / (1000 * 1000))) * 1000 + DigitsValue(mhz) == freqKhz / 1000
  {
    var m := freqKhz / 1000 % 1000;
    ZeroPadValue(Decimal(m), 3);
    assert |Decimal(m)| <= 3 by {
      DecimalLength(m);
    }
    MegahertzSplit(freqKhz);
  }

  lemma {:induction false} DecimalLength(n: nat)
    ensures n < 1000 ==> |Decimal(n)| <= 3
  {
    if n >= 10 {
      DecimalLength(n / 10);
    }
  }

  /** Whole gigahertz and the megahertz below them make up the whole megahertz. */
  lemma MegahertzSplit(freqKhz: nat)
    ensures freqKhz / (1000 * 1000) * 1000 + freqKhz / 1000 % 1000 == freqKhz / 1000
  {
    var q := freqKhz / 1000;
    var a, b, r := q / 1000, q % 1000, freqKhz % 1000;
    assert freqKhz == a * (1000 * 1000) + (b * 1000 + r);
    assert 0 <= b * 1000 + r < 1000 * 1000;
    assert freqKhz / (1000 * 1000) == a;
  }

  // ---------------------------------------------------------------------------
  // The strtol acceptance test of get_cache_line_size and get_cpu_freq

  /** read(fd, buf, sizeof(buf) - 1) on a 32-byte buffer reads at most 31 bytes. */
  const SysfsReadLimit: nat := 31

  /** The bytes such a read returns from a file. */
  function FirstBytes(text: string, n: nat): string
  {
    text[..Min(|text|, n)]
  }

  /** A number is accepted iff strtol consumed at least one digit and stopped at
      the end of the text, a NUL or a newline. */
  function SysfsNumber(text: string): Option<int>
  {
    var sc := StrToLong(text);
    if sc.end != 0 && (sc.end == |text| || text[sc.end] == '\0' || text[sc.end] == '\n')
    then Some(sc.value)
    else None
  }

  /** A value as sysfs writes it (digits and a newline) is accepted. */
  lemma SysfsNumberAccepts(n: nat)
    ensures SysfsNumber(Decimal(n) + "\n") == Some(n)
    ensures SysfsNumber(Decimal(n)) == Some(n)
  {
    ScanDecimal(n, "\n");
    ScanDecimal(n, []);
    assert Decimal(n) + [] == Decimal(n);
  }

  /** A number followed by anything but a newline or NUL is rejected. */
  lemma SysfsNumberRejectsTrailing(n: nat, c: char, rest: string)
    requires !IsDigit(c) && c != '\n' && c != '\0'
    ensures SysfsNumber(Decimal(n) + [c] + rest) == None
  {
    assert Decimal(n) + [c] + rest == Decimal(n) + ([c] + rest);
    ScanDecimal(n, [c] + rest);
  }

  /** Text with no digit where the number should start is rejected. */
  lemma SysfsNumberRejectsNoDigits(text: string)
    requires StrToLong(text).end == 0
    ensures SysfsNumber(text) == None
  {
  }

  /** The read-and-test step that get_cache_line_size and get_cpu_freq share: -1
      when the file cannot be opened or read, or when its first 31 bytes fail the
      acceptance test; otherwise the number read. */
  function ReadSysfsNumber(file: Option<string>): (r: int)
    ensures file.None? ==> r == -1
    ensures file.Some? && SysfsNumber(FirstBytes(file.value, SysfsReadLimit)).None? ==> r == -1
    ensures file.Some? && SysfsNumber(FirstBytes(file.value, SysfsReadLimit)).Some? ==>
              r == SysfsNumber(FirstBytes(file.value, SysfsReadLimit)).value
  {
    match file
    case None => -1
    case Some(text) =>
      match SysfsNumber(FirstBytes(text, SysfsReadLimit))
      case Some(v) => v
      case None => -1
  }

  /** A sysfs value that fits the 31-byte read is returned as it was written. */
  lemma SysfsValueRoundTrip(n: nat)
    requires |Decimal(n)| < SysfsReadLimit
    ensures ReadSysfsNumber(Some(Decimal(n) + "\n")) == n
  {
    var text := Decimal(n) + "\n";
    assert FirstBytes(text, SysfsReadLimit) == text;
    SysfsNumberAccepts(n);
  }
}
