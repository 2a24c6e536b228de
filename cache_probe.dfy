/** The cache topology probe: the type and size of one cache index directory
    (get_cache_size), the sparse table of cache sizes gathered from every
    indexN directory of a CPU (get_cache_sizes), and that table rendered as
    "[a, b, c]" into a caller's buffer (get_cache_sizes_str).
    The sysfs directory and its files are inputs: a file is None when open or
    read fails, otherwise its contents. */
module CacheProbe {
  import opened CLib
  import opened Sizes

  // ---------------------------------------------------------------------------
  // get_cache_size

  /** `char buf[32]` in get_cache_size. */
  const BufLen: nat := 32

  /** memset(buf, 0, sizeof(buf)) in get_cache_size. */
  function Zeroed(): seq<char>
  {
    seq(BufLen, _ => '\0')
  }

  /** read(fd, buf, sizeof(buf) - 1) of a file into `buf`, then a newline as the
      last byte read is overwritten with NUL. The rest of `buf` keeps what it held. */
  function ReadStrip(buf: seq<char>, text: string): (r: seq<char>)
    requires |buf| == BufLen && |text| >= 1
    ensures |r| == BufLen
    ensures var n := Min(|text|, BufLen - 1);
            && (forall i :: 0 <= i < n - 1 ==> r[i] == text[i])
            && r[n - 1] == (if text[n - 1] == '\n' then '\0' else text[n - 1])
            && (forall i :: n <= i < BufLen ==> r[i] == buf[i])
  {
    var n := Min(|text|, BufLen - 1);
    var b := text[..n] + buf[n..];
    if b[n - 1] == '\n' then b[n - 1 := '\0'] else b
  }

  /** A newline-terminated file that fits the read leaves its line as the C
      string, whatever the buffer held before. */
  lemma ReadStripLine(buf: seq<char>, text: string)
    requires |buf| == BufLen && 1 <= |text| <= BufLen - 1
    requires text[|text| - 1] == '\n' && NoNul(text[..|text| - 1])
    ensures CString(ReadStrip(buf, text)) == text[..|text| - 1]
  {
    var r := ReadStrip(buf, text);
    var line := text[..|text| - 1];
    assert r[..|line|] == line;
    CStringIs(r, line);
  }

  /** Without a NUL among the bytes read, the C string starts with the first byte read. */
  lemma ReadStripStart(buf: seq<char>, text: string)
    requires |buf| == BufLen && |text| >= 1 && text[0] != '\0' && text != "\n"
    ensures |CString(ReadStrip(buf, text))| >= 1
  {
    var r := ReadStrip(buf, text);
    assert r[0] == text[0] by {
      if |text| == 1 {
        assert text == [text[0]];
      }
    }
  }

  datatype CacheType = Instruction | Data | Unified | Invalid

  /** The strcmp chain on the type string. */
  function ClassifyType(s: string): CacheType
  {
    if s == "Instruction" then Instruction
    else if s == "Data" then Data
    else if s == "Unified" then Unified
    else Invalid
  }

  /** get_cache_size's return value, and whether a failed open or read left errno set. */
  datatype Probe = Probe(size: int, errnoSet: bool)

  /** A readable type file is never empty: the C code strips buf[bytes_read - 1]. */
  predicate TypeFileOk(f: Option<string>)
  {
    f.Some? ==> |f.value| >= 1
  }

  /** A readable size file is never empty (the C code strips buf[bytes_read - 1]),
      and leaves a non-empty C string: it neither starts with a NUL nor is a
      lone newline, since parse_size indexes str[strlen(str) - 1]. */
  predicate SizeFileOk(f: Option<string>)
  {
    f.Some? ==> |f.value| >= 1 && f.value[0] != '\0' && f.value != "\n"
  }

  /** The cache type as get_cache_size reads it into the zeroed buffer. */
  function TypeOf(text: string): CacheType
    requires |text| >= 1
  {
    ClassifyType(CString(ReadStrip(Zeroed(), text)))
  }

  /** Only data and unified caches go on to open and read their size file. */
  predicate ReadsSize(k: CacheType)
  {
    k == Data || k == Unified
  }

  /** What get_cache_size demands of its files: a readable type file, and a
      size file as SizeFileOk says when the type leads to reading it. */
  predicate ProbeOk(typeFile: Option<string>, sizeFile: Option<string>)
  {
    TypeFileOk(typeFile) &&
    (typeFile.Some? && ReadsSize(TypeOf(typeFile.value)) ==> SizeFileOk(sizeFile))
  }

  /** get_cache_size as written: the size file is read into the same buffer as
      the type file without clearing it, so a size text without a trailing
      newline runs on into what is left of the type string. */
  function CacheSizeAsWritten(typeFile: Option<string>, sizeFile: Option<string>): Probe
    requires ProbeOk(typeFile, sizeFile)
  {
    match typeFile
    case None => Probe(-1, true)
    case Some(t) =>
      var buf := ReadStrip(Zeroed(), t);
      match ClassifyType(CString(buf))
      case Instruction => Probe(0, false)
      case Invalid => Probe(-1, false)
      case _ =>
        match sizeFile
        case None => Probe(-1, true)
        case Some(z) =>
          ReadStripStart(buf, z);
          Probe(ParseSize(CString(ReadStrip(buf, z))), false)
  }

  /** get_cache_size with the buffer cleared before the size is read, as evidently
      intended: instruction caches give 0, unknown types -1, a failed open or
      read -1 with errno set, data and unified caches their parsed size. */
  function CacheSize(typeFile: Option<string>, sizeFile: Option<string>): Probe
    requires ProbeOk(typeFile, sizeFile)
  {
    match typeFile
    case None => Probe(-1, true)
    case Some(t) =>
      match TypeOf(t)
      case Instruction => Probe(0, false)
      case Invalid => Probe(-1, false)
      case _ =>
        match sizeFile
        case None => Probe(-1, true)
        case Some(z) =>
          ReadStripStart(Zeroed(), z);
          Probe(ParseSize(CString(ReadStrip(Zeroed(), z))), false)
  }

  /** The sysfs files of a data or unified cache, "Data\n" and "32K\n", give the
      size in bytes; an instruction cache gives 0 whatever its size file says;
      any other type gives -1. */
  lemma CacheSizeOfSysfs(kind: string, n: nat, c: char, sizeFile: Option<string>)
    requires 1 <= |kind| <= 30 && NoNul(kind)
    requires IsSizeSuffix(c) && |Decimal(n)| <= 29
    ensures kind == "Data" || kind == "Unified" ==>
              CacheSize(Some(kind + "\n"), Some(Decimal(n) + [c] + "\n")) == Probe(n * Multiplier(c), false)
    ensures kind == "Instruction" ==> CacheSize(Some(kind + "\n"), sizeFile) == Probe(0, false)
    ensures kind != "Data" && kind != "Unified" && kind != "Instruction" ==>
              CacheSize(Some(kind + "\n"), sizeFile) == Probe(-1, false)
  {
    TypeLine(kind);
    if kind == "Data" || kind == "Unified" {
      SizeLine(n, c);
      ParseSizeSuffixed(n, c);
    }
  }

  /** Instruction caches and unknown types return before the size file is
      opened, so the probe, as written or corrected, ignores whatever that
      file holds: 0 for an instruction cache, -1 otherwise. */
  lemma SizeFileUnread(t: string, sizeFile: Option<string>)
    requires |t| >= 1 && !ReadsSize(TypeOf(t))
    ensures CacheSizeAsWritten(Some(t), sizeFile) == CacheSize(Some(t), sizeFile)
    ensures CacheSize(Some(t), sizeFile) == Probe(if TypeOf(t) == Instruction then 0 else -1, false)
  {
  }

  /** A type file holding one line is classified by that line. */
  lemma TypeLine(kind: string)
    requires 1 <= |kind| <= 30 && NoNul(kind)
    ensures TypeOf(kind + "\n") == ClassifyType(kind)
  {
    var t := kind + "\n";
    assert t[..|t| - 1] == kind;
    ReadStripLine(Zeroed(), t);
  }

  /** A size file holding digits and a suffix on one line is read as that line. */
  lemma SizeLine(n: nat, c: char)
    requires IsSizeSuffix(c) && |Decimal(n)| <= 29
    ensures CString(ReadStrip(Zeroed(), Decimal(n) + [c] + "\n")) == Decimal(n) + [c]
  {
    var z := Decimal(n) + [c] + "\n";
    var line := Decimal(n) + [c];
    assert z[..|z| - 1] == line;
    assert NoNul(line) by {
      assert forall i :: 0 <= i < |Decimal(n)| ==> line[i] == Decimal(n)[i];
    }
    ReadStripLine(Zeroed(), z);
  }

  /** Where sysfs ends every file with a newline, the as-written probe and the
      corrected one agree. */
  lemma CacheSizeAgreesOnLines(typeFile: Option<string>, z: string)
    requires ProbeOk(typeFile, Some(z))
    requires 1 <= |z| <= BufLen - 1 && z[|z| - 1] == '\n' && NoNul(z[..|z| - 1])
    ensures CacheSizeAsWritten(typeFile, Some(z)) == CacheSize(typeFile, Some(z))
  {
    if typeFile.Some? {
      var buf := ReadStrip(Zeroed(), typeFile.value);
      ReadStripLine(buf, z);
      ReadStripLine(Zeroed(), z);
    }
  }

  /** A size file without its trailing newline: "32K" after "Data\n" is read
      as "32Ka", which parse_size takes as 32 bytes instead of 32 KiB. */
  lemma StaleTypeTailCounterexample()
    ensures CacheSizeAsWritten(Some("Data\n"), Some("32K")) == Probe(32, false)
    ensures CacheSize(Some("Data\n"), Some("32K")) == Probe(32 * 1024, false)
  {
    StaleSizeValue();
    CleanSizeValue();
    DataSizeAsWritten();
    DataSizeCorrected();
  }

  lemma StaleSizeValue()
    ensures ParseSize("32Ka") == 32
  {
    assert Decimal(32) == "32" by {
      assert DigitChar(3) == '3' && DigitChar(2) == '2';
    }
    assert "32Ka"[..3] == Decimal(32) + "K";
    ScanDecimal(32, "K");
  }

  lemma CleanSizeValue()
    ensures ParseSize("32K") == 32 * 1024
  {
    assert Decimal(32) == "32" by {
      assert DigitChar(3) == '3' && DigitChar(2) == '2';
    }
    assert "32K"[..2] == Decimal(32) + [];
    ScanDecimal(32, []);
  }

  lemma DataSizeAsWritten()
    ensures CacheSizeAsWritten(Some("Data\n"), Some("32K")) == Probe(ParseSize("32Ka"), false)
  {
    var buf := ReadStrip(Zeroed(), "Data\n");
    DataTypeRead();
    assert ClassifyType(CString(buf)) == Data;
    StaleSizeRead(buf);
  }

  lemma DataSizeCorrected()
    ensures CacheSize(Some("Data\n"), Some("32K")) == Probe(ParseSize("32K"), false)
  {
    DataTypeRead();
    assert TypeOf("Data\n") == Data;
    CleanSizeRead();
  }

  lemma DataTypeRead()
    ensures var buf := ReadStrip(Zeroed(), "Data\n");
            && CString(buf) == "Data" && buf[3] == 'a' && buf[4] == '\0'
  {
    var t := "Data\n";
    assert t[..|t| - 1] == "Data";
    ReadStripLine(Zeroed(), t);
  }

  lemma StaleSizeRead(buf: seq<char>)
    requires |buf| == BufLen && buf[3] == 'a' && buf[4] == '\0'
    ensures CString(ReadStrip(buf, "32K")) == "32Ka"
  {
    var stale := ReadStrip(buf, "32K");
    assert stale[0] == '3' && stale[1] == '2' && stale[2] == 'K' && stale[3] == 'a' && stale[4] == '\0';
    assert stale[..4] == "32Ka";
    CStringIs(stale, "32Ka");
  }

  lemma CleanSizeRead()
    ensures CString(ReadStrip(Zeroed(), "32K")) == "32K"
  {
    var clean := ReadStrip(Zeroed(), "32K");
    assert clean[0] == '3' && clean[1] == '2' && clean[2] == 'K' && clean[3] == '\0';
    assert clean[..3] == "32K";
    CStringIs(clean, "32K");
  }

  // ---------------------------------------------------------------------------
  // get_cache_sizes

  /** An entry of the CPU's cache directory as readdir returns it: an indexN
      directory (N as sscanf "index%d" reads it) with its type and size files,
      or any other entry. */
  datatype DirEntry =
    | IndexEntry(index: int, typeFile: Option<string>, sizeFile: Option<string>)
    | OtherEntry

  /** opendir failed, or the entries readdir returned and whether it stopped on an error. */
  datatype CacheDir = Unopenable | Listing(entries: seq<DirEntry>, readdirFailed: bool)

  predicate EntryOk(e: DirEntry)
  {
    e.IndexEntry? ==> ProbeOk(e.typeFile, e.sizeFile)
  }

  predicate EntriesOk(es: seq<DirEntry>)
  {
    forall i :: 0 <= i < |es| ==> EntryOk(es[i])
  }

  /** An index directory of the listing with what get_cache_size returned for it. */
  datatype Found = Found(index: int, probe: Probe)

  /** The get_cache_size that get_cache_sizes calls: as written (the size read
      into the type's buffer) or corrected (a cleared buffer). */
  function GetCacheSize(typeFile: Option<string>, sizeFile: Option<string>, asWritten: bool): Probe
    requires ProbeOk(typeFile, sizeFile)
  {
    if asWritten then CacheSizeAsWritten(typeFile, sizeFile) else CacheSize(typeFile, sizeFile)
  }

  /** The index directories of a listing in readdir order, each probed once. */
  function Probed(es: seq<DirEntry>, asWritten: bool): seq<Found>
    requires EntriesOk(es)
  {
    if es == [] then []
    else
      var init := es[..|es| - 1];
      assert EntriesOk(init) by {
        assert forall i :: 0 <= i < |init| ==> init[i] == es[i];
      }
      var e := es[|es| - 1];
      Probed(init, asWritten) +
        (if e.IndexEntry? then [Found(e.index, GetCacheSize(e.typeFile, e.sizeFile, asWritten))] else [])
  }

  /** get_cache_sizes keeps a probed directory whose size is positive. */
  predicate Stored(f: Found)
  {
    f.probe.size > 0
  }

  /** What get_cache_sizes demands of the directory: every index whose size is
      stored lies inside the caller's array (the C code writes
      cache_sizes[index] unchecked). */
  predicate ValidEntries(es: seq<DirEntry>, len: nat, asWritten: bool)
  {
    EntriesOk(es) &&
    forall i :: 0 <= i < |es| && es[i].IndexEntry? && GetCacheSize(es[i].typeFile, es[i].sizeFile, asWritten).size > 0 ==>
      0 <= es[i].index < len
  }

  predicate InBounds(fs: seq<Found>, len: nat)
  {
    forall i :: 0 <= i < |fs| && Stored(fs[i]) ==> 0 <= fs[i].index < len
  }

  lemma {:induction false} ProbedInBounds(es: seq<DirEntry>, len: nat, asWritten: bool)
    requires ValidEntries(es, len, asWritten)
    ensures InBounds(Probed(es, asWritten), len)
    decreases |es|
  {
    if es != [] {
      var init := es[..|es| - 1];
      assert forall i :: 0 <= i < |init| ==> init[i] == es[i];
      ProbedInBounds(init, len, asWritten);
    }
  }

  /** The caller's table after the probed directories are stored in order. */
  function Fill(t: seq<int>, fs: seq<Found>): (r: seq<int>)
    requires InBounds(fs, |t|)
    ensures |r| == |t|
  {
    if fs == [] then t
    else
      var init := fs[..|fs| - 1];
      assert InBounds(init, |t|) by {
        assert forall i :: 0 <= i < |init| ==> init[i] == fs[i];
      }
      var f := fs[|fs| - 1];
      var t' := Fill(t, init);
      if Stored(f) then t'[f.index := f.probe.size] else t'
  }

  /** highest_index: -1 when nothing was stored, otherwise no stored index exceeds it. */
  function Highest(fs: seq<Found>): (h: int)
    ensures h >= -1
    ensures forall i :: 0 <= i < |fs| && Stored(fs[i]) ==> fs[i].index <= h
  {
    if fs == [] then -1
    else
      var init := fs[..|fs| - 1];
      assert forall i :: 0 <= i < |init| ==> init[i] == fs[i];
      var f := fs[|fs| - 1];
      var h := Highest(init);
      if Stored(f) && f.index > h then f.index else h
  }

  /** A highest_index other than -1 is the index of a stored directory. */
  lemma {:induction false} HighestAttained(fs: seq<Found>) returns (w: nat)
    requires Highest(fs) >= 0
    ensures w < |fs| && Stored(fs[w]) && fs[w].index == Highest(fs)
    decreases |fs|
  {
    var init := fs[..|fs| - 1];
    var f := fs[|fs| - 1];
    if Stored(f) && f.index > Highest(init) {
      w := |fs| - 1;
    } else {
      w := HighestAttained(init);
      assert init[w] == fs[w];
    }
  }

  /** Some open or read of a type or size file failed (errno is never cleared). */
  function AnyErrno(fs: seq<Found>): bool
  {
    if fs == [] then false
    else AnyErrno(fs[..|fs| - 1]) || fs[|fs| - 1].probe.errnoSet
  }

  /** The cache table get_cache_sizes leaves behind: every probed directory
      with a positive size has a positive slot, and only positive sizes are
      written; an unopenable directory leaves the table as it was. */
  function Table(t: seq<int>, dir: CacheDir, asWritten: bool): (r: seq<int>)
    requires dir.Listing? ==> ValidEntries(dir.entries, |t|, asWritten)
    ensures |r| == |t|
    ensures dir.Unopenable? ==> r == t
    ensures dir.Listing? ==>
              var fs := Probed(dir.entries, asWritten);
              forall i :: 0 <= i < |fs| && Stored(fs[i]) ==> 0 <= fs[i].index < |t| && r[fs[i].index] > 0
    ensures forall k :: 0 <= k < |t| && r[k] != t[k] ==> r[k] > 0
  {
    if dir.Listing? then
      ProbedInBounds(dir.entries, |t|, asWritten);
      FillStored(t, Probed(dir.entries, asWritten));
      Fill(t, Probed(dir.entries, asWritten))
    else t
  }

  /** get_cache_sizes' return value: -1 when the directory cannot be opened or
      listed or some file could not be read, otherwise highest index + 1. */
  function CacheCount(dir: CacheDir, asWritten: bool): int
    requires dir.Listing? ==> EntriesOk(dir.entries)
  {
    if dir.Unopenable? || dir.readdirFailed || AnyErrno(Probed(dir.entries, asWritten)) then -1
    else Highest(Probed(dir.entries, asWritten)) + 1
  }

  /** get_cache_sizes: each directory entry is probed in readdir order, a
      positive size is written at its index, and the count is highest index + 1. */
  method GetCacheSizes(dir: CacheDir, cacheSizes: array<int>, asWritten: bool) returns (count: int)
    requires dir.Listing? ==> ValidEntries(dir.entries, cacheSizes.Length, asWritten)
    modifies cacheSizes
    ensures cacheSizes[..] == Table(old(cacheSizes[..]), dir, asWritten)
    ensures count == CacheCount(dir, asWritten)
  {
    if dir.Unopenable? {
      return -1;
    }
    var es := dir.entries;
    var highest := -1;
    var errno := false;
    for i := 0 to |es|
      invariant InBounds(Probed(es[..i], asWritten), cacheSizes.Length)
      invariant cacheSizes[..] == Fill(old(cacheSizes[..]), Probed(es[..i], asWritten))
      invariant highest == Highest(Probed(es[..i], asWritten))
      invariant errno == AnyErrno(Probed(es[..i], asWritten))
    {
      ProbedStep(es, i, cacheSizes.Length, asWritten);
      var e := es[i];
      if e.IndexEntry? {
        var probe := GetCacheSize(e.typeFile, e.sizeFile, asWritten);
        var f := Found(e.index, probe);
        FoundAppended(old(cacheSizes[..]), Probed(es[..i], asWritten), f);
        StoreFound(cacheSizes, f);
        errno := errno || probe.errnoSet;
        if probe.size > 0 && e.index > highest {
          highest := e.index;
        }
      } else {
        assert Probed(es[..i], asWritten) + [] == Probed(es[..i], asWritten);
      }
    }
    assert es[..|es|] == es;
    if dir.readdirFailed || errno {
      return -1;
    }
    return highest + 1;
  }

  /** `cache_sizes[index] = size` for a positive size. */
  method StoreFound(cacheSizes: array<int>, f: Found)
    requires Stored(f) ==> 0 <= f.index < cacheSizes.Length
    modifies cacheSizes
    ensures cacheSizes[..] == if Stored(f) then old(cacheSizes[..])[f.index := f.probe.size] else old(cacheSizes[..])
  {
    if f.probe.size > 0 {
      cacheSizes[f.index] := f.probe.size;
    }
  }

  /** One more entry of the listing: an index directory adds its probe. */
  lemma ProbedStep(es: seq<DirEntry>, i: nat, len: nat, asWritten: bool)
    requires ValidEntries(es, len, asWritten) && i < |es|
    ensures ValidEntries(es[..i + 1], len, asWritten) && InBounds(Probed(es[..i + 1], asWritten), len)
    ensures var e := es[i];
            Probed(es[..i + 1], asWritten) ==
              Probed(es[..i], asWritten) +
                if e.IndexEntry? then [Found(e.index, GetCacheSize(e.typeFile, e.sizeFile, asWritten))] else []
  {
    assert es[..i + 1][..i] == es[..i];
    assert ValidEntries(es[..i + 1], len, asWritten) by {
      assert forall j :: 0 <= j <= i ==> es[..i + 1][j] == es[j];
    }
    ProbedInBounds(es[..i + 1], len, asWritten);
  }

  /** One more probed directory: stored at its index, raising highest_index, and
      adding to errno. */
  lemma FoundAppended(t: seq<int>, fs: seq<Found>, f: Found)
    requires InBounds(fs + [f], |t|)
    ensures InBounds(fs, |t|) && (Stored(f) ==> 0 <= f.index < |t|)
    ensures Fill(t, fs + [f]) == if Stored(f) then Fill(t, fs)[f.index := f.probe.size] else Fill(t, fs)
    ensures Highest(fs + [f]) == if Stored(f) && f.index > Highest(fs) then f.index else Highest(fs)
    ensures AnyErrno(fs + [f]) == (AnyErrno(fs) || f.probe.errnoSet)
  {
    var next := fs + [f];
    assert next[..|fs|] == fs && next[|fs|] == f;
    assert forall i :: 0 <= i < |fs| ==> fs[i] == next[i];
  }

  /** Every stored directory's slot ends up positive, and only positive sizes are written. */
  lemma {:induction false} FillStored(t: seq<int>, fs: seq<Found>)
    requires InBounds(fs, |t|)
    ensures forall i :: 0 <= i < |fs| && Stored(fs[i]) ==> Fill(t, fs)[fs[i].index] > 0
    ensures forall k :: 0 <= k < |t| && Fill(t, fs)[k] != t[k] ==> Fill(t, fs)[k] > 0
    decreases |fs|
  {
    if fs != [] {
      var init := fs[..|fs| - 1];
      assert forall i :: 0 <= i < |init| ==> init[i] == fs[i];
      FillStored(t, init);
    }
  }

  /** Slots no directory stores into keep their value; a slot that changed holds
      the size of some directory stored there. */
  lemma {:induction false} FillAt(t: seq<int>, fs: seq<Found>, k: int)
    requires InBounds(fs, |t|) && 0 <= k < |t|
    ensures (forall i :: 0 <= i < |fs| ==> !(Stored(fs[i]) && fs[i].index == k)) ==> Fill(t, fs)[k] == t[k]
    ensures Fill(t, fs)[k] != t[k] ==>
              exists i :: 0 <= i < |fs| && Stored(fs[i]) && fs[i].index == k && fs[i].probe.size == Fill(t, fs)[k]
    decreases |fs|
  {
    if fs != [] {
      var init := fs[..|fs| - 1];
      assert forall i :: 0 <= i < |init| ==> init[i] == fs[i];
      FillAt(t, init, k);
    }
  }

  /** The last directory stored into a slot decides what the slot holds. */
  lemma {:induction false} LastStoreWins(t: seq<int>, fs: seq<Found>, k: int, w: nat)
    requires InBounds(fs, |t|) && 0 <= k < |t|
    requires w < |fs| && Stored(fs[w]) && fs[w].index == k
    requires forall j :: w < j < |fs| ==> !(Stored(fs[j]) && fs[j].index == k)
    ensures Fill(t, fs)[k] == fs[w].probe.size
    decreases |fs|
  {
    var init := fs[..|fs| - 1];
    assert forall i :: 0 <= i < |init| ==> init[i] == fs[i];
    if w < |fs| - 1 {
      LastStoreWins(t, init, k, w);
    }
  }

  /** The count is one past the highest stored slot: that slot holds a positive
      size and every slot from the count on is untouched. */
  lemma CacheCountMeaning(t: seq<int>, dir: CacheDir, asWritten: bool)
    requires dir.Listing? ==> ValidEntries(dir.entries, |t|, asWritten)
    ensures CacheCount(dir, asWritten) <= |t|
    ensures CacheCount(dir, asWritten) > 0 ==> Table(t, dir, asWritten)[CacheCount(dir, asWritten) - 1] > 0
    ensures CacheCount(dir, asWritten) >= 0 ==>
              forall k :: CacheCount(dir, asWritten) <= k < |t| ==> Table(t, dir, asWritten)[k] == t[k]
  {
    if dir.Listing? {
      var fs := Probed(dir.entries, asWritten);
      ProbedInBounds(dir.entries, |t|, asWritten);
      var h := Highest(fs);
      if h >= 0 {
        var w := HighestAttained(fs);
      }
      forall k | h < k < |t| ensures Fill(t, fs)[k] == t[k] {
        FillAt(t, fs, k);
      }
    }
  }

  // ---------------------------------------------------------------------------
  // get_cache_sizes_str

  /** `ssize_t cache_sizes[10]` in get_cache_sizes_str, zeroed by memset. */
  const CacheSlots: nat := 10

  /** The table after memset(cache_sizes, 0, sizeof(cache_sizes)). */
  function ZeroTable(): seq<int>
  {
    seq(CacheSlots, _ => 0)
  }

  /** One cache size as listed: human_readable_size, or "%zu". */
  function Render(v: int, human: bool): (s: string)
    requires v > 0
    ensures NoNul(s) && |s| >= 1
  {
    if human then HumanReadableSize(v) else Decimal(v)
  }

  /** The positive sizes, rendered, in index order. */
  function Rendered(sizes: seq<int>, human: bool): (r: seq<string>)
    ensures |r| <= |sizes|
    ensures forall i :: 0 <= i < |r| ==> NoNul(r[i])
  {
    if sizes == [] then []
    else
      var v := sizes[|sizes| - 1];
      Rendered(sizes[..|sizes| - 1], human) + (if v > 0 then [Render(v, human)] else [])
  }

  /** The items joined by ", ". */
  function Join(items: seq<string>): string
  {
    if items == [] then []
    else if |items| == 1 then items[0]
    else Join(items[..|items| - 1]) + ", " + items[|items| - 1]
  }

  /** The items each followed by ", ", as the loop writes them. */
  function Listed(items: seq<string>): string
  {
    if items == [] then [] else Listed(items[..|items| - 1]) + (items[|items| - 1] + ", ")
  }

  lemma {:induction false} ListedJoin(items: seq<string>)
    requires items != []
    ensures Listed(items) == Join(items) + ", "
    decreases |items|
  {
    if |items| > 1 {
      ListedJoin(items[..|items| - 1]);
    } else {
      assert items[..0] == [];
    }
  }

  lemma {:induction false} NoNulJoin(items: seq<string>)
    requires forall i :: 0 <= i < |items| ==> NoNul(items[i])
    ensures NoNul(Join(items))
    decreases |items|
  {
    if |items| > 1 {
      var init := items[..|items| - 1];
      assert forall i :: 0 <= i < |init| ==> init[i] == items[i];
      NoNulJoin(init);
      var a, b := Join(init) + ", ", items[|items| - 1];
      assert forall i :: 0 <= i < |a + b| ==> (a + b)[i] == if i < |a| then a[i] else b[i - |a|];
    }
  }

  /** The buffer being filled, result_size, and whether a write did not fit. */
  datatype ListState = ListState(buf: seq<char>, used: nat, failed: bool)

  predicate StateOk(st: ListState)
  {
    1 <= st.used <= |st.buf|
  }

  /** One snprintf of a piece at result_size, then the truncation check: as
      written, failure when chars_written > room; corrected, when it is >= room,
      that is, whenever snprintf had to cut the piece short. The write happens
      before the check either way. */
  function AppendPiece(st: ListState, p: string, asWritten: bool): (r: ListState)
    requires StateOk(st)
    ensures StateOk(r) && |r.buf| == |st.buf|
  {
    if st.failed then st
    else
      var room := |st.buf| - st.used;
      var buf := Snprintf(st.buf, st.used, room, p);
      if (if asWritten then |p| > room else |p| >= room) then ListState(buf, st.used, true)
      else ListState(buf, st.used + |p|, false)
  }

  /** The loop over the slots: each positive size appended as "<size>, ". */
  function AppendSizes(st: ListState, sizes: seq<int>, human: bool, asWritten: bool): (r: ListState)
    requires StateOk(st)
    ensures StateOk(r) && |r.buf| == |st.buf|
  {
    if sizes == [] then st
    else
      var before := AppendSizes(st, sizes[..|sizes| - 1], human, asWritten);
      var v := sizes[|sizes| - 1];
      if v > 0 then AppendPiece(before, Render(v, human) + ", ", asWritten) else before
  }

  function StartList(buf: seq<char>): (st: ListState)
    requires |buf| >= 1
    ensures StateOk(st)
  {
    ListState(buf[0 := '['], 1, false)
  }

  /** get_cache_sizes_str's return value and the buffer it leaves. */
  datatype Rendering = Rendering(code: int, buf: seq<char>)

  /** After the loop: -1 on a failed write or when nothing was written; otherwise
      "]" written over the last ", ". As written the snprintf bound is
      buf_size - result_size although it writes at result_size - 2; corrected,
      the bound is the room that is really left there. */
  function Finish(st: ListState, asWritten: bool): Rendering
    requires StateOk(st)
  {
    if st.failed || st.used == 1 then Rendering(-1, st.buf)
    else
      var room := if asWritten then |st.buf| - st.used else |st.buf| - st.used + 2;
      Rendering(0, Snprintf(st.buf, st.used - 2, room, "]"))
  }

  /** get_cache_sizes_str as written, from the table and count get_cache_sizes gave. */
  function CacheListAsWritten(buf: seq<char>, sizes: seq<int>, count: int, human: bool): Rendering
    requires |buf| >= 1 && count <= |sizes|
  {
    if count <= 0 then Rendering(-1, buf)
    else Finish(AppendSizes(StartList(buf), sizes[..count], human, true), true)
  }

  /** The same with both bounds corrected. */
  function CacheList(buf: seq<char>, sizes: seq<int>, count: int, human: bool): Rendering
    requires |buf| >= 1 && count <= |sizes|
  {
    if count <= 0 then Rendering(-1, buf)
    else Finish(AppendSizes(StartList(buf), sizes[..count], human, false), false)
  }

  /** The buffer holds "[" and `text` as long as nothing failed, and a write
      failed exactly when "[", `text` and the NUL no longer fit. */
  predicate ListHolds(b: seq<char>, st: ListState, text: string)
  {
    && |st.buf| == |b|
    && (st.failed <==> text != [] && 1 + |text| >= |b|)
    && (!st.failed ==> st.used == 1 + |text| <= |st.buf| && st.buf[..st.used] == "[" + text)
  }

  lemma AppendPieceCorrected(b: seq<char>, st: ListState, text: string, p: string)
    requires StateOk(st) && ListHolds(b, st, text) && |p| >= 1
    ensures ListHolds(b, AppendPiece(st, p, false), text + p)
  {
    var r := AppendPiece(st, p, false);
    if st.failed {
      assert r == st;
    } else if |p| < |st.buf| - st.used {
      PieceFits(st, text, p);
    } else {
      assert r.failed;
    }
  }

  /** A piece that fits with its NUL extends the text held after "[". */
  lemma PieceFits(st: ListState, text: string, p: string)
    requires StateOk(st) && !st.failed && |p| < |st.buf| - st.used
    requires st.used == 1 + |text| && st.buf[..st.used] == "[" + text
    ensures Snprintf(st.buf, st.used, |st.buf| - st.used, p)[..st.used + |p|] == "[" + (text + p)
  {
    SnprintfFits(st.buf, st.used, |st.buf| - st.used, p);
    assert "[" + text + p == "[" + (text + p);
  }

  /** With the corrected check the loop fails exactly when some piece no longer
      fits with its NUL; otherwise the buffer holds "[" and every piece. */
  lemma {:induction false} AppendSizesCorrected(b: seq<char>, sizes: seq<int>, human: bool)
    requires |b| >= 1
    ensures ListHolds(b, AppendSizes(StartList(b), sizes, human, false), Listed(Rendered(sizes, human)))
    decreases |sizes|
  {
    if sizes == [] {
      assert StartList(b).buf[..1] == "[" + [];
    } else {
      var init := sizes[..|sizes| - 1];
      var v := sizes[|sizes| - 1];
      AppendSizesCorrected(b, init, human);
      var items := Rendered(init, human);
      if v > 0 {
        var p := Render(v, human) + ", ";
        assert (items + [Render(v, human)])[..|items|] == items;
        assert Listed(Rendered(sizes, human)) == Listed(items) + p;
        AppendPieceCorrected(b, AppendSizes(StartList(b), init, human, false), Listed(items), p);
      } else {
        assert Rendered(sizes, human) == items;
      }
    }
  }

  /** One more slot: a positive size appends its piece, any other changes nothing. */
  lemma AppendSizesStep(st: ListState, sizes: seq<int>, i: nat, human: bool, asWritten: bool)
    requires StateOk(st) && i < |sizes|
    ensures var before := AppendSizes(st, sizes[..i], human, asWritten);
            AppendSizes(st, sizes[..i + 1], human, asWritten) ==
              if sizes[i] > 0 then AppendPiece(before, Render(sizes[i], human) + ", ", asWritten) else before
  {
    assert sizes[..i + 1][..i] == sizes[..i];
  }

  /** Once a write has failed, the remaining slots change nothing. */
  lemma {:induction false} AppendSizesStaysFailed(st: ListState, sizes: seq<int>, k: nat, human: bool, asWritten: bool)
    requires StateOk(st) && k <= |sizes|
    requires AppendSizes(st, sizes[..k], human, asWritten).failed
    ensures AppendSizes(st, sizes, human, asWritten) == AppendSizes(st, sizes[..k], human, asWritten)
    decreases |sizes|
  {
    if k < |sizes| {
      var init := sizes[..|sizes| - 1];
      assert init[..k] == sizes[..k];
      AppendSizesStaysFailed(st, init, k, human, asWritten);
    } else {
      assert sizes[..k] == sizes;
    }
  }

  /** The corrected listing succeeds exactly when some slot below the count is
      positive and "[", the pieces and the NUL fit the buffer; it then holds
      "[" + the positive sizes in index order joined by ", " + "]". */
  lemma CacheListMeaning(buf: seq<char>, sizes: seq<int>, count: int, human: bool)
    requires |buf| >= 1 && count <= |sizes|
    ensures var r := CacheList(buf, sizes, count, human);
            var items := if count <= 0 then [] else Rendered(sizes[..count], human);
            && (r.code == 0 || r.code == -1)
            && (r.code == 0 <==> items != [] && |Join(items)| + 3 < |buf|)
            && (r.code == 0 ==> CString(r.buf) == "[" + Join(items) + "]")
  {
    if count > 0 {
      var items := Rendered(sizes[..count], human);
      AppendSizesCorrected(buf, sizes[..count], human);
      if items != [] {
        ListedJoin(items);
        var st := AppendSizes(StartList(buf), sizes[..count], human, false);
        if !st.failed {
          JoinedHead(items);
          CloseList(st, "[" + Join(items));
        }
      }
    }
  }

  /** Writing "]" over the final ", " closes the list; with the as-written bound
      it does so exactly when two bytes are left after the ", ", although the
      result is 0 either way. */
  lemma CloseList(st: ListState, head: string)
    requires StateOk(st) && !st.failed && st.used != 1
    requires NoNul(head) && st.buf[..st.used] == head + ", "
    ensures Finish(st, false).code == 0
    ensures CString(Finish(st, false).buf) == head + "]"
    ensures Finish(st, true).code == 0
    ensures |st.buf| - st.used >= 2 <==> CString(Finish(st, true).buf) == head + "]"
  {
    var b := st.buf;
    var u := st.used;
    assert b[..u - 2] == head;
    SnprintfCString(b, u - 2, |b| - u + 2, "]");
    if |b| - u >= 1 {
      SnprintfCString(b, u - 2, |b| - u, "]");
    } else {
      NoNulConcat(head, ", ");
      CStringIs(b, head + ", ");
    }
  }

  lemma JoinedHead(items: seq<string>)
    requires forall i :: 0 <= i < |items| ==> NoNul(items[i])
    ensures NoNul("[" + Join(items))
  {
    NoNulJoin(items);
    NoNulConcat("[", Join(items));
  }

  /** With at least one spare byte after the last ", " the as-written listing
      gives the same text as the corrected one. */
  lemma CacheListAgreesWithRoom(buf: seq<char>, sizes: seq<int>, count: int, human: bool)
    requires |buf| >= 1 && 0 < count <= |sizes|
    requires var items := Rendered(sizes[..count], human); items != [] && |Join(items)| + 4 < |buf|
    ensures CacheListAsWritten(buf, sizes, count, human).code == 0
    ensures CString(CacheListAsWritten(buf, sizes, count, human).buf) == CString(CacheList(buf, sizes, count, human).buf)
  {
    var items := Rendered(sizes[..count], human);
    ListedJoin(items);
    AppendSizesCorrected(buf, sizes[..count], human);
    AppendSizesAgree(StartList(buf), sizes[..count], human);
    var st := AppendSizes(StartList(buf), sizes[..count], human, false);
    JoinedHead(items);
    CloseList(st, "[" + Join(items));
  }

  /** While no piece is cut short, the two checks take the same steps. */
  lemma {:induction false} AppendSizesAgree(st: ListState, sizes: seq<int>, human: bool)
    requires StateOk(st)
    requires !AppendSizes(st, sizes, human, false).failed
    ensures AppendSizes(st, sizes, human, true) == AppendSizes(st, sizes, human, false)
    decreases |sizes|
  {
    if sizes != [] {
      AppendSizesAgree(st, sizes[..|sizes| - 1], human);
    }
  }

  /** A piece that exactly fills the rest of the buffer passes the as-written
      check although snprintf cut its last character: with a 4-byte buffer and
      one cache of 7 bytes the result is 0 and the buffer holds "[7,". */
  lemma ExactFitCounterexample()
    ensures CacheListAsWritten("xxxx", [7], 1, false) == Rendering(0, "[7,\0")
    ensures CString("[7,\0") == "[7,"
    ensures CacheList("xxxx", [7], 1, false).code == -1
  {
    assert [7][..1] == [7];
    assert [7][..0] == [];
    assert Render(7, false) == "7" by {
      assert DigitChar(7) == '7';
    }
    var st0 := StartList("xxxx");
    assert st0.buf == "[xxx";
    assert Snprintf("[xxx", 1, 3, "7, ") == "[7,\0";
    assert AppendSizes(st0, [7], false, true) == ListState("[7,\0", 4, false);
    assert AppendSizes(st0, [7], false, false).failed;
    CStringIs("[7,\0", "[7,");
  }

  /** The closing "]" is written with the bound buf_size - result_size from
      result_size - 2: with a 5-byte buffer and one cache of 7 bytes only the
      NUL fits and the listing reads "[7" instead of "[7]". */
  lemma DroppedBracketCounterexample()
    ensures CacheListAsWritten("xxxxx", [7], 1, false).code == 0
    ensures CString(CacheListAsWritten("xxxxx", [7], 1, false).buf) == "[7"
    ensures CString(CacheList("xxxxx", [7], 1, false).buf) == "[7]"
  {
    assert [7][..1] == [7];
    assert [7][..0] == [];
    assert Render(7, false) == "7" by {
      assert DigitChar(7) == '7';
    }
    var st0 := StartList("xxxxx");
    assert st0.buf == "[xxxx";
    assert Snprintf("[xxxx", 1, 4, "7, ") == "[7, \0";
    assert AppendSizes(st0, [7], false, true) == ListState("[7, \0", 4, false);
    assert AppendSizes(st0, [7], false, false) == ListState("[7, \0", 4, false);
    assert Snprintf("[7, \0", 2, 1, "]") == "[7\0 \0";
    assert Snprintf("[7, \0", 2, 3, "]") == "[7]\0\0";
    CStringIs("[7\0 \0", "[7");
    CStringIs("[7]\0\0", "[7]");
  }

  /** The listing loop of get_cache_sizes_str over the first `count` slots of
      the table, with the truncation checks as written or corrected. */
  method WriteList(buf: array<char>, sizes: array<int>, count: int, human: bool, asWritten: bool) returns (r: int)
    requires buf.Length >= 1 && 0 < count <= sizes.Length
    modifies buf
    ensures Rendering(r, buf[..]) ==
              if asWritten then CacheListAsWritten(old(buf[..]), sizes[..], count, human)
              else CacheList(old(buf[..]), sizes[..], count, human)
  {
    ghost var start := StartList(buf[..]);
    ghost var all := sizes[..count];
    buf[0] := '[';
    assert buf[..] == start.buf;
    var used: nat := 1;
    for i := 0 to count
      invariant ListState(buf[..], used, false) == AppendSizes(start, all[..i], human, asWritten)
    {
      AppendSizesStep(start, all, i, human, asWritten);
      if sizes[i] > 0 {
        var failed;
        used, failed := WritePiece(buf, used, Render(sizes[i], human) + ", ", asWritten);
        if failed {
          AppendSizesStaysFailed(start, all, i + 1, human, asWritten);
          assert all[..count] == all;
          return -1;
        }
      }
    }
    assert all[..count] == all;
    assert sizes[..][..count] == all;
    if used == 1 {
      return -1;
    }
    var room := if asWritten then buf.Length - used else buf.Length - used + 2;
    var _ := WriteString(buf, used - 2, room, "]");
    return 0;
  }

  /** One snprintf of a piece at result_size followed by the truncation check,
      as written (chars_written > room) or corrected (>= room). */
  method WritePiece(buf: array<char>, used: nat, piece: string, asWritten: bool) returns (newUsed: nat, failed: bool)
    requires 1 <= used <= buf.Length
    modifies buf
    ensures ListState(buf[..], newUsed, failed) == AppendPiece(ListState(old(buf[..]), used, false), piece, asWritten)
  {
    var room := buf.Length - used;
    var written := WriteString(buf, used, room, piece);
    failed := if asWritten then written > room else written >= room;
    newUsed := if failed then used else used + written;
  }

  /** get_cache_sizes_str: the table gathered into a zeroed array of ten slots,
      then listed into the caller's buffer; as written, or with the buffer
      handling of get_cache_size and both bounds corrected. */
  method GetCacheSizesStr(buf: array<char>, dir: CacheDir, human: bool, asWritten: bool) returns (r: int)
    requires buf.Length >= 1
    requires dir.Listing? ==> ValidEntries(dir.entries, CacheSlots, asWritten)
    modifies buf
    ensures CacheCount(dir, asWritten) <= CacheSlots
    ensures var t := Table(ZeroTable(), dir, asWritten);
            var count := CacheCount(dir, asWritten);
            Rendering(r, buf[..]) ==
              if asWritten then CacheListAsWritten(old(buf[..]), t, count, human)
              else CacheList(old(buf[..]), t, count, human)
  {
    var cacheSizes := new int[CacheSlots](_ => 0);
    assert cacheSizes[..] == ZeroTable();
    var count := GetCacheSizes(dir, cacheSizes, asWritten);
    CacheCountMeaning(ZeroTable(), dir, asWritten);
    if count <= 0 {
      return -1;
    }
    r := WriteList(buf, cacheSizes, count, human, asWritten);
  }
}
