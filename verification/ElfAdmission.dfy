/**
 The static x86-64 ELF admission check of the bundle format, program headers as in
 chapter 5 of the System V gABI, and what an accepted file guarantees its loader.
 */
module ElfAdmission {
  import opened Bytes

  const LOW_LAST: nat := 0x0000_7FFF_FFFF_FFFF
  const HIGH_FIRST: nat := 0xFFFF_8000_0000_0000
  const PAGE: nat := 4096
  const GNU_STACK: nat := 0x6474_E551
  const IDENT: Buffer := [0x7F, 0x45, 0x4C, 0x46, 2, 1, 1, 0, 0, 0, 0, 0, 0, 0, 0, 0]

  predicate Bounded(raw: Buffer, offset: nat, size: nat) {
    offset <= |raw| && size <= |raw| - offset
  }

  predicate Canonical(address: nat) { address <= LOW_LAST || address >= HIGH_FIRST }

  function BitAnd(a: nat, b: nat): nat {
    if a == 0 || b == 0 then 0
    else (if a % 2 == 1 && b % 2 == 1 then 1 else 0) + 2 * BitAnd(a / 2, b / 2)
  }

  /** not value or not value & (value - 1) */
  predicate Power2OrZero(value: nat) { value == 0 || BitAnd(value, value - 1) == 0 }

  lemma {:induction false} BitAndSelf(a: nat)
    ensures BitAnd(a, a) == a
  {
    if a > 0 {
      BitAndSelf(a / 2);
    }
  }

  /** A larger odd number is no power of two, and the bit trick refuses it. */
  lemma OddOverOne(value: nat)
    requires value > 1 && value % 2 == 1
    ensures !Power2OrZero(value)
    ensures forall k: nat :: value != Pow2(k)
  {
    hide Pow2;
    BitAndSelf(value / 2);
    assert (value - 1) / 2 == value / 2;
    forall k: nat ensures value != Pow2(k) {
      Doubling(k);
    }
  }

  /** An even number and its half are powers of two together, and the bit trick treats them alike. */
  lemma EvenHalves(value: nat)
    requires value > 1 && value % 2 == 0
    ensures (exists k: nat :: value == Pow2(k)) <==> (exists k: nat :: value / 2 == Pow2(k))
  {
    hide Pow2;
    if k: nat :| value / 2 == Pow2(k) {
      var next := k + 1;
      Doubling(next);
      assert value == Pow2(next);
    }
    if k: nat :| value == Pow2(k) {
      Doubling(k);
      var half: nat := k - 1;
      assert value / 2 == Pow2(half);
    }
  }

  lemma Doubling(k: nat)
    ensures if k == 0 then Pow2(k) == 1 else Pow2(k) == 2 * Pow2(k - 1)
  {
  }

  lemma EvenTest(value: nat)
    requires value > 1 && value % 2 == 0
    ensures Power2OrZero(value) <==> Power2OrZero(value / 2)
  {
    assert (value - 1) / 2 == value / 2 - 1;
    assert BitAnd(value, value - 1) == 2 * BitAnd(value / 2, (value - 1) / 2);
  }

  /** The bit trick accepts exactly zero and the powers of two. */
  lemma {:induction false} Power2TestExact(value: nat)
    ensures Power2OrZero(value) <==> value == 0 || exists k: nat :: value == Pow2(k)
    decreases value
  {
    hide Pow2, Power2OrZero;
    if value <= 1 {
      SmallTest();
    } else if value % 2 == 1 {
      OddOverOne(value);
    } else {
      Power2TestExact(value / 2);
      EvenHalves(value);
      EvenTest(value);
    }
  }

  lemma SmallTest()
    ensures Power2OrZero(0) && Power2OrZero(1) && Pow2(0) == 1
  {
  }

  datatype Header = Header(kind: nat, flags: nat, offset: nat, virtual: nat, filesz: nat, memsz: nat, align: nat) {
    function Last(): int { virtual + memsz - 1 }
    function PageStart(): nat { virtual - virtual % PAGE }
    function PageEnd(): int { (Last() / PAGE + 1) * PAGE }
    predicate Executable() { flags % 2 == 1 }
    predicate Writable() { flags / 2 % 2 == 1 }
    predicate Readable() { flags / 4 % 2 == 1 }
    predicate Covers(address: nat) { virtual <= address < virtual + memsz }
    predicate FileBacks(address: nat) { virtual <= address < virtual + filesz }
    predicate OnPage(page: nat) { PageStart() <= page * PAGE < PageEnd() }
  }

  function HeaderAt(raw: Buffer, at: nat): Header
    requires at + 56 <= |raw|
  {
    Header(Field(raw, at, 4), Field(raw, at + 4, 4), Field(raw, at + 8, 8), Field(raw, at + 16, 8),
           Field(raw, at + 32, 8), Field(raw, at + 40, 8), Field(raw, at + 48, 8))
  }

  function Entry(raw: Buffer): nat requires |raw| >= 64 { Field(raw, 24, 8) }
  function TableOffset(raw: Buffer): nat requires |raw| >= 64 { Field(raw, 32, 8) }
  function TableCount(raw: Buffer): nat requires |raw| >= 64 { Field(raw, 56, 2) }
  function SectionOffset(raw: Buffer): nat requires |raw| >= 64 { Field(raw, 40, 8) }
  function SectionCount(raw: Buffer): nat requires |raw| >= 64 { Field(raw, 60, 2) }

  predicate FileHeaderOk(raw: Buffer) {
    && 64 <= |raw| <= MAX_ELF && raw[..16] == IDENT
    && Field(raw, 16, 2) == 2 && Field(raw, 18, 2) == 62 && Field(raw, 20, 4) == 1
    && Field(raw, 48, 4) == 0 && Field(raw, 52, 2) == 64 && Field(raw, 54, 2) == 56
    && 1 <= TableCount(raw) <= 64
    && TableOffset(raw) >= 64 && TableOffset(raw) % 8 == 0
    && Bounded(raw, TableOffset(raw), TableCount(raw) * 56)
  }

  predicate SectionOk(raw: Buffer, at: nat)
    requires at + 64 <= |raw|
  {
    var kind := Field(raw, at + 4, 4);
    && kind !in {4, 9, 19, 6, 11} && Field(raw, at + 8, 8) / 0x400 % 2 == 0
    && Power2OrZero(Field(raw, at + 48, 8))
    && Bounded(raw, Field(raw, at + 24, 8), if kind == 8 then 0 else Field(raw, at + 32, 8))
  }

  predicate SectionTableShape(raw: Buffer)
    requires FileHeaderOk(raw)
  {
    var shoff, count := SectionOffset(raw), SectionCount(raw);
    if shoff != 0 then
      && 1 <= count <= 4096 && Field(raw, 62, 2) < count && Field(raw, 58, 2) == 64
      && shoff >= 64 && shoff % 8 == 0 && Bounded(raw, shoff, count * 64)
      && !(shoff < TableOffset(raw) + TableCount(raw) * 56 && TableOffset(raw) < shoff + count * 64)
    else
      count == 0 && Field(raw, 62, 2) == 0 && Field(raw, 58, 2) == 0
  }

  predicate SectionsOk(raw: Buffer)
    requires FileHeaderOk(raw)
  {
    && SectionTableShape(raw)
    && forall i | 0 <= i < SectionCount(raw) :: SectionOk(raw, SectionOffset(raw) + i * 64)
  }

  predicate MetadataOk(raw: Buffer, h: Header)
    requires |raw| >= 64
  {
    && (if h.kind == GNU_STACK then h.flags < 8 && !h.Executable() && h.filesz == 0 && h.memsz == 0
        else h.kind == 6 && h.flags == 4 && h.offset == TableOffset(raw)
             && h.filesz == TableCount(raw) * 56 && h.memsz == h.filesz)
    && Bounded(raw, h.offset, h.filesz) && Power2OrZero(h.align)
  }

  /** The checks a loadable segment passes on its own. */
  predicate SegmentOk(raw: Buffer, h: Header) {
    && h.flags < 8 && h.Readable() && h.flags % 4 != 3
    && h.memsz != 0 && h.filesz <= h.memsz && Bounded(raw, h.offset, h.filesz)
    && h.memsz - 1 <= MAX_U64 - h.virtual
    && h.virtual != 0 && Canonical(h.virtual) && Canonical(h.Last())
    && h.virtual / 0x8000_0000_0000 == h.Last() / 0x8000_0000_0000
    && Power2OrZero(h.align) && (h.align > 1 ==> h.virtual % h.align == h.offset % h.align)
    && h.virtual % PAGE == h.offset % PAGE
    && h.Last() <= MAX_U64 - PAGE
  }

  function HeaderNumber(raw: Buffer, i: nat): Header
    requires FileHeaderOk(raw) && i < TableCount(raw)
  {
    HeaderAt(raw, TableOffset(raw) + i * 56)
  }

  /** The loadable segments among the first n program headers, in table order. */
  function Loads(raw: Buffer, n: nat): (segments: seq<Header>)
    requires FileHeaderOk(raw) && n <= TableCount(raw)
  {
    if n == 0 then []
    else if HeaderNumber(raw, n - 1).kind == 1 then Loads(raw, n - 1) + [HeaderNumber(raw, n - 1)]
    else Loads(raw, n - 1)
  }

  predicate HeaderOk(raw: Buffer, h: Header)
    requires |raw| >= 64
  {
    h.kind == 0 || (if h.kind == 1 then SegmentOk(raw, h) else MetadataOk(raw, h))
  }

  predicate PagesOverlap(a: Header, b: Header) { a.PageStart() < b.PageEnd() && b.PageStart() < a.PageEnd() }

  predicate OrderedAndDisjoint(segments: seq<Header>) {
    forall i, j | 0 <= i < j < |segments| ::
      segments[i].virtual <= segments[j].virtual && !PagesOverlap(segments[i], segments[j])
  }

  predicate EntryCovered(segments: seq<Header>, entry: nat) {
    exists i :: 0 <= i < |segments| && segments[i].Executable() && segments[i].FileBacks(entry)
  }

  predicate SpanBounded(segments: seq<Header>) {
    forall i, j | 0 <= i < |segments| && 0 <= j < |segments| ::
      segments[i].PageEnd() - segments[j].PageStart() <= MAX_ELF
  }

  /** What the admission check promises, segment by segment and pair by pair. */
  predicate Admissible(raw: Buffer) {
    && FileHeaderOk(raw) && SectionsOk(raw)
    && Entry(raw) != 0 && Canonical(Entry(raw))
    && ScanOk(raw, TableCount(raw))
    && var segments := Loads(raw, TableCount(raw));
    && segments != [] && EntryCovered(segments, Entry(raw)) && SpanBounded(segments)
  }

  /** The first n program headers are acceptable one by one and their segments pair by pair. */
  predicate ScanOk(raw: Buffer, n: nat)
    requires FileHeaderOk(raw) && n <= TableCount(raw)
  {
    && (forall i | 0 <= i < n :: HeaderOk(raw, HeaderNumber(raw, i)))
    && |Loads(raw, n)| <= 16 && OrderedAndDisjoint(Loads(raw, n))
  }

  datatype Summary = Summary(entry: nat, loadSegments: nat)

  /** `validate_elf` accepts exactly the admissible files. */
  method ValidateElf(raw: Buffer) returns (r: Result<Summary>)
    ensures r.Ok? <==> Admissible(raw)
    ensures r.Ok? ==> r.value == Summary(Entry(raw), |Loads(raw, TableCount(raw))|)
  {
    if !FileHeaderOk(raw) {
      return Err("ELF file header or program header table");
    }
    var sections := CheckSections(raw);
    if !sections {
      return Err("ELF section table");
    }
    hide FileHeaderOk, SectionsOk, Field, TableCount, Entry, ScanOk;
    var entry := Entry(raw);
    if entry == 0 || !Canonical(entry) {
      return Err("ELF entry must be nonzero and 48-bit canonical");
    }
    var problem, segments, executableEntry := ScanHeaders(raw, entry);
    if problem.Some? {
      return Err(problem.value);
    }
    if segments == [] || !executableEntry {
      return Err("ELF requires a file-backed executable entry");
    }
    var bounds := ImageBounds(segments);
    if bounds.1 - bounds.0 > MAX_ELF {
      return Err("ELF requires bounded contiguous image memory");
    }
    r := Ok(Summary(entry, |segments|));
  }

  /** The program header loop: the segments collected, and whether one of them backs the entry. */
  method ScanHeaders(raw: Buffer, entry: nat)
      returns (problem: Option<string>, segments: seq<Header>, executableEntry: bool)
    requires FileHeaderOk(raw)
    ensures problem.None? <==> ScanOk(raw, TableCount(raw))
    ensures problem.None? ==> segments == Loads(raw, TableCount(raw))
    ensures problem.None? ==> (executableEntry <==> EntryCovered(segments, entry))
  {
    hide *;
    EmptyScan(raw);
    var count := TableCount(raw);
    var previous, index := 0, 0;
    segments, executableEntry := [], false;
    while index < count
      invariant 0 <= index <= count
      invariant ScanOk(raw, index) && segments == Loads(raw, index)
      invariant segments != [] ==> previous == segments[|segments| - 1].virtual
      invariant executableEntry <==> EntryCovered(segments, entry)
    {
      var h := HeaderNumber(raw, index);
      ScanStep(raw, index);
      ScanMonotone(raw, index + 1, count);
      problem := CheckHeader(raw, segments, previous, h);
      if problem.Some? {
        return;
      }
      if h.kind == 1 {
        EntryCoveredStep(segments, h, entry);
        executableEntry := executableEntry || (h.Executable() && h.FileBacks(entry));
        previous := h.virtual;
        segments := segments + [h];
      }
      index := index + 1;
    }
    problem := None;
  }

  /** The checks on one program header, in the order they are made. */
  method CheckHeader(raw: Buffer, segments: seq<Header>, previous: nat, h: Header) returns (problem: Option<string>)
    requires |raw| >= 64
    requires segments != [] ==> previous == segments[|segments| - 1].virtual
    ensures problem.None? <==> Accepts(raw, segments, h)
  {
    hide SegmentOk, MetadataOk, PagesOverlap;
    if h.kind > 1 {
      return if MetadataOk(raw, h) then None else Some("Unsupported ELF program header semantics");
    }
    if h.kind == 1 {
      if |segments| == 16 || !SegmentOk(raw, h) {
        return Some("Invalid ELF load segment");
      }
      if exists i | 0 <= i < |segments| :: PagesOverlap(h, segments[i]) {
        return Some("Overlapping ELF load pages");
      }
      if segments != [] && h.virtual < previous {
        return Some("ELF load segments are not in address order");
      }
    }
    return None;
  }

  /** What one iteration of the header loop lets pass, given the segments collected so far. */
  predicate Accepts(raw: Buffer, segments: seq<Header>, h: Header)
    requires |raw| >= 64
  {
    if h.kind > 1 then MetadataOk(raw, h)
    else h.kind == 1 ==>
      && |segments| != 16 && SegmentOk(raw, h)
      && !(exists i :: 0 <= i < |segments| && PagesOverlap(h, segments[i]))
      && !(segments != [] && h.virtual < segments[|segments| - 1].virtual)
  }

  lemma EmptyScan(raw: Buffer)
    requires FileHeaderOk(raw)
    ensures |raw| >= 64 && ScanOk(raw, 0) && Loads(raw, 0) == []
    ensures forall entry :: !EntryCovered([], entry)
  {
  }

  lemma ScanStep(raw: Buffer, n: nat)
    requires FileHeaderOk(raw) && n < TableCount(raw)
    requires ScanOk(raw, n)
    ensures ScanOk(raw, n + 1) <==> Accepts(raw, Loads(raw, n), HeaderNumber(raw, n))
    ensures Loads(raw, n + 1) ==
            if HeaderNumber(raw, n).kind == 1 then Loads(raw, n) + [HeaderNumber(raw, n)] else Loads(raw, n)
  {
    hide FileHeaderOk, SegmentOk, MetadataOk, HeaderNumber, TableCount;
    EmptyScan(raw);
    var segments, h := Loads(raw, n), HeaderNumber(raw, n);
    var next := Loads(raw, n + 1);
    if h.kind == 1 {
      assert next == segments + [h];
      PairStep(segments, h);
    }
    assert ScanOk(raw, n + 1) <==> HeaderOk(raw, h) && |next| <= 16 && OrderedAndDisjoint(next);
  }

  lemma PairStep(segments: seq<Header>, h: Header)
    requires OrderedAndDisjoint(segments)
    ensures OrderedAndDisjoint(segments + [h]) <==>
            && !(exists i :: 0 <= i < |segments| && PagesOverlap(h, segments[i]))
            && !(segments != [] && h.virtual < segments[|segments| - 1].virtual)
  {
    var all := segments + [h];
    if OrderedAndDisjoint(all) {
      forall i | 0 <= i < |segments| ensures !PagesOverlap(h, segments[i]) && segments[i].virtual <= h.virtual {
        assert all[i] == segments[i] && all[|segments|] == h;
      }
    }
  }

  lemma ScanMonotone(raw: Buffer, n: nat, m: nat)
    requires FileHeaderOk(raw) && n <= m <= TableCount(raw)
    ensures ScanOk(raw, m) ==> ScanOk(raw, n)
  {
    hide FileHeaderOk, HeaderOk, HeaderNumber, TableCount, PagesOverlap;
    LoadsArePrefix(raw, n, m);
    if ScanOk(raw, m) {
      var some, all := Loads(raw, n), Loads(raw, m);
      assert forall i | 0 <= i < |some| :: some[i] == all[i];
    }
  }

  method CheckSections(raw: Buffer) returns (ok: bool)
    requires FileHeaderOk(raw)
    ensures ok <==> SectionsOk(raw)
  {
    if !SectionTableShape(raw) {
      return false;
    }
    for index := 0 to SectionCount(raw)
      invariant forall i | 0 <= i < index :: SectionOk(raw, SectionOffset(raw) + i * 64)
    {
      if !SectionOk(raw, SectionOffset(raw) + index * 64) {
        return false;
      }
    }
    return true;
  }

  /** The smallest page start and the largest page end; their distance bounds every pair's. */
  method ImageBounds(segments: seq<Header>) returns (bounds: (int, int))
    requires segments != []
    ensures bounds.1 - bounds.0 <= MAX_ELF <==> SpanBounded(segments)
    ensures forall s | s in segments :: bounds.0 <= s.PageStart() && s.PageEnd() <= bounds.1
  {
    var low, high := 0, 0;
    for i := 1 to |segments|
      invariant 0 <= low < i && 0 <= high < i
      invariant forall k | 0 <= k < i :: segments[low].PageStart() <= segments[k].PageStart()
      invariant forall k | 0 <= k < i :: segments[k].PageEnd() <= segments[high].PageEnd()
    {
      if segments[i].PageStart() < segments[low].PageStart() {
        low := i;
      }
      if segments[i].PageEnd() > segments[high].PageEnd() {
        high := i;
      }
    }
    bounds := (segments[low].PageStart(), segments[high].PageEnd());
  }

  lemma {:induction false} LoadsArePrefix(raw: Buffer, n: nat, m: nat)
    requires FileHeaderOk(raw) && n <= m <= TableCount(raw)
    ensures Loads(raw, n) <= Loads(raw, m)
    decreases m
  {
    hide FileHeaderOk, HeaderNumber, TableCount, Field;
    if n < m {
      LoadsArePrefix(raw, n, m - 1);
    }
  }

  lemma EntryCoveredStep(segments: seq<Header>, h: Header, entry: nat)
    ensures EntryCovered(segments + [h], entry)
            <==> EntryCovered(segments, entry) || (h.Executable() && h.FileBacks(entry))
  {
    var all := segments + [h];
    if EntryCovered(segments, entry) {
      var i :| 0 <= i < |segments| && segments[i].Executable() && segments[i].FileBacks(entry);
      assert all[i] == segments[i];
    }
    assert all[|segments|] == h;
  }

  // ---------------------------------------------------------------- guarantees

  /** The segments a loader maps from an admitted file. */
  function Segments(raw: Buffer): seq<Header>
    requires Admissible(raw)
  {
    Loads(raw, TableCount(raw))
  }

  lemma {:induction false} LoadsAreHeaders(raw: Buffer, n: nat)
    requires FileHeaderOk(raw) && n <= TableCount(raw)
    ensures forall s | s in Loads(raw, n) :: s.kind == 1 && exists i :: 0 <= i < n && s == HeaderNumber(raw, i)
  {
    if n > 0 {
      LoadsAreHeaders(raw, n - 1);
    }
  }

  lemma SegmentFacts(raw: Buffer, i: nat)
    requires Admissible(raw) && i < |Segments(raw)|
    ensures SegmentOk(raw, Segments(raw)[i])
  {
    LoadsAreHeaders(raw, TableCount(raw));
    var s := Segments(raw)[i];
    assert s in Loads(raw, TableCount(raw));
    var k :| 0 <= k < TableCount(raw) && s == HeaderNumber(raw, k);
    assert HeaderOk(raw, HeaderNumber(raw, k));
  }

  /** Every program and section header read stays inside the file. */
  lemma HeaderReadsInside(raw: Buffer, i: nat)
    requires FileHeaderOk(raw)
    ensures i < TableCount(raw) ==> TableOffset(raw) + i * 56 + 56 <= |raw|
    ensures SectionTableShape(raw) && i < SectionCount(raw) ==> SectionOffset(raw) + i * 64 + 64 <= |raw|
  {
  }

  /** Page rounding keeps the segment inside its pages and below 2^64. */
  lemma PageRounding(raw: Buffer, s: Header)
    requires SegmentOk(raw, s)
    ensures s.PageStart() % PAGE == 0 && s.PageEnd() % PAGE == 0
    ensures s.PageStart() <= s.virtual <= s.Last() < s.PageEnd() <= MAX_U64
    ensures s.PageEnd() - s.Last() <= PAGE
  {
  }

  /** Page ranges are strictly ascending and disjoint, and none of them wraps. */
  lemma PagesAscend(raw: Buffer, i: nat, j: nat)
    requires Admissible(raw) && i < j < |Segments(raw)|
    ensures Segments(raw)[i].PageStart() < Segments(raw)[i].PageEnd() <= Segments(raw)[j].PageStart()
            < Segments(raw)[j].PageEnd() <= MAX_U64
  {
    var a, b := Segments(raw)[i], Segments(raw)[j];
    SegmentFacts(raw, i);
    SegmentFacts(raw, j);
    PageRounding(raw, a);
    PageRounding(raw, b);
    assert a.virtual <= b.virtual && !PagesOverlap(a, b);
  }

  /** All segments lie in one canonical half, though each was only checked against its own. */
  lemma OneCanonicalHalf(raw: Buffer)
    requires Admissible(raw)
    ensures || (forall i | 0 <= i < |Segments(raw)| :: Segments(raw)[i].Last() <= LOW_LAST)
            || (forall i | 0 <= i < |Segments(raw)| :: HIGH_FIRST <= Segments(raw)[i].virtual)
    ensures forall i, j | 0 <= i < |Segments(raw)| && 0 <= j < |Segments(raw)| ::
              Segments(raw)[i].Last() - Segments(raw)[j].virtual < MAX_ELF
  {
    var segments := Segments(raw);
    forall i | 0 <= i < |segments|
      ensures segments[i].Last() <= LOW_LAST || HIGH_FIRST <= segments[i].virtual
      ensures segments[i].PageStart() <= segments[i].virtual <= segments[i].Last() < segments[i].PageEnd()
    {
      SegmentFacts(raw, i);
      PageRounding(raw, segments[i]);
      OwnHalf(raw, segments[i]);
    }
    if i, j :| 0 <= i < |segments| && 0 <= j < |segments|
               && segments[i].Last() > LOW_LAST && segments[j].virtual < HIGH_FIRST {
      assert false;
    }
  }

  lemma OwnHalf(raw: Buffer, s: Header)
    requires SegmentOk(raw, s)
    ensures s.Last() <= LOW_LAST || HIGH_FIRST <= s.virtual
  {
    if s.virtual <= LOW_LAST {
      assert s.virtual / 0x8000_0000_0000 == 0;
    }
  }

  /** Each page belongs to one segment, so no page is both writable and executable. */
  lemma WriteXorExecute(raw: Buffer, page: nat, i: nat, j: nat)
    requires Admissible(raw) && i < |Segments(raw)| && j < |Segments(raw)|
    requires Segments(raw)[i].OnPage(page) && Segments(raw)[j].OnPage(page)
    ensures i == j
    ensures !(Segments(raw)[i].Writable() && Segments(raw)[j].Executable())
  {
    hide Admissible, SegmentOk;
    SegmentFacts(raw, i);
    SegmentFacts(raw, j);
    if i < j {
      PagesAscend(raw, i, j);
    } else if j < i {
      PagesAscend(raw, j, i);
    }
    NeverBoth(raw, Segments(raw)[i]);
  }

  lemma NeverBoth(raw: Buffer, h: Header)
    requires SegmentOk(raw, h)
    ensures !(h.Writable() && h.Executable())
  {
  }

  /** Two segments share no address. */
  lemma AddressesDisjoint(raw: Buffer, i: nat, j: nat, address: nat)
    requires Admissible(raw) && i < |Segments(raw)| && j < |Segments(raw)|
    requires Segments(raw)[i].Covers(address) && Segments(raw)[j].Covers(address)
    ensures i == j
  {
    SegmentFacts(raw, i);
    SegmentFacts(raw, j);
    PageRounding(raw, Segments(raw)[i]);
    PageRounding(raw, Segments(raw)[j]);
    if i < j {
      PagesAscend(raw, i, j);
    } else if j < i {
      PagesAscend(raw, j, i);
    }
  }

  type Memory = map<nat, Byte>

  /** The byte a segment puts at an address it covers: file contents, then zero fill. */
  function SegmentByte(raw: Buffer, s: Header, address: nat): Byte
    requires SegmentOk(raw, s) && s.Covers(address)
  {
    if s.FileBacks(address) then raw[s.offset + (address - s.virtual)] else 0
  }

  function LoadSegment(raw: Buffer, s: Header, memory: Memory): Memory
    requires SegmentOk(raw, s)
  {
    memory + map a | s.virtual <= a < s.virtual + s.memsz :: SegmentByte(raw, s, a)
  }

  /** Load the segments named by order, first to last. */
  function LoadInOrder(raw: Buffer, segments: seq<Header>, order: seq<nat>, memory: Memory): Memory
    requires forall i | 0 <= i < |segments| :: SegmentOk(raw, segments[i])
    requires forall k | 0 <= k < |order| :: order[k] < |segments|
  {
    if order == [] then memory
    else
      var last := |order| - 1;
      LoadSegment(raw, segments[order[last]], LoadInOrder(raw, segments, order[..last], memory))
  }

  predicate IsOrder(order: seq<nat>, n: nat) {
    && (forall k | 0 <= k < |order| :: order[k] < n)
    && (forall i | 0 <= i < n :: i in order)
  }

  ghost predicate OneOwner(segments: seq<Header>) {
    forall i, j, a | 0 <= i < |segments| && 0 <= j < |segments| && segments[i].Covers(a) && segments[j].Covers(a) ::
      i == j
  }

  lemma Loadable(raw: Buffer)
    requires Admissible(raw)
    ensures forall i | 0 <= i < |Segments(raw)| :: SegmentOk(raw, Segments(raw)[i])
    ensures OneOwner(Segments(raw))
  {
    forall i | 0 <= i < |Segments(raw)| ensures SegmentOk(raw, Segments(raw)[i]) {
      SegmentFacts(raw, i);
    }
    var segments := Segments(raw);
    forall i, j, a | 0 <= i < |segments| && 0 <= j < |segments| && segments[i].Covers(a) && segments[j].Covers(a)
      ensures i == j
    {
      AddressesDisjoint(raw, i, j, a);
    }
  }

  /** What memory holds afterwards does not mention the order: each covered byte has one owner. */
  lemma {:induction false} LoadedByte(raw: Buffer, segments: seq<Header>, order: seq<nat>, memory: Memory, address: nat)
    requires forall i | 0 <= i < |segments| :: SegmentOk(raw, segments[i])
    requires forall k | 0 <= k < |order| :: order[k] < |segments|
    requires OneOwner(segments)
    ensures var loaded := LoadInOrder(raw, segments, order, memory);
            && (forall i | i in order && segments[i].Covers(address) ::
                  address in loaded && loaded[address] == SegmentByte(raw, segments[i], address))
            && ((forall i | i in order :: !segments[i].Covers(address)) ==>
                  (address in loaded <==> address in memory) &&
                  (address in memory ==> loaded[address] == memory[address]))
    decreases |order|
  {
    hide SegmentOk, SegmentByte, LoadSegment, Header.Covers;
    if order != [] {
      var last := |order| - 1;
      LoadedByte(raw, segments, order[..last], memory, address);
      LoadedOne(raw, segments[order[last]], LoadInOrder(raw, segments, order[..last], memory), address);
      assert forall i :: i in order <==> i in order[..last] || i == order[last];
    }
  }

  lemma LoadedOne(raw: Buffer, s: Header, memory: Memory, address: nat)
    requires SegmentOk(raw, s)
    ensures var loaded := LoadSegment(raw, s, memory);
            if s.Covers(address) then address in loaded && loaded[address] == SegmentByte(raw, s, address)
            else
              && (address in loaded <==> address in memory)
              && (address in memory ==> loaded[address] == memory[address])
  {
    hide SegmentOk, SegmentByte;
  }

  /** Loading the segments in any two orders gives the same memory. */
  lemma LoadOrderIrrelevant(raw: Buffer, first: seq<nat>, second: seq<nat>, memory: Memory)
    requires Admissible(raw)
    requires IsOrder(first, |Segments(raw)|) && IsOrder(second, |Segments(raw)|)
    ensures (forall i | 0 <= i < |Segments(raw)| :: SegmentOk(raw, Segments(raw)[i]))
    ensures LoadInOrder(raw, Segments(raw), first, memory) == LoadInOrder(raw, Segments(raw), second, memory)
  {
    Loadable(raw);
    SameMemory(raw, Segments(raw), first, second, memory);
  }

  lemma SameMemory(raw: Buffer, segments: seq<Header>, first: seq<nat>, second: seq<nat>, memory: Memory)
    requires forall i | 0 <= i < |segments| :: SegmentOk(raw, segments[i])
    requires OneOwner(segments) && IsOrder(first, |segments|) && IsOrder(second, |segments|)
    ensures LoadInOrder(raw, segments, first, memory) == LoadInOrder(raw, segments, second, memory)
  {
    hide SegmentOk, LoadInOrder;
    var a, b := LoadInOrder(raw, segments, first, memory), LoadInOrder(raw, segments, second, memory);
    forall address: nat
      ensures address in a <==> address in b
      ensures address in a && address in b ==> a[address] == b[address]
    {
      LoadedByte(raw, segments, first, memory, address);
      LoadedByte(raw, segments, second, memory, address);
      if i :| 0 <= i < |segments| && segments[i].Covers(address) {
        assert i in first && i in second;
      }
    }
    assert a.Keys == b.Keys;
  }

  /** The entry byte in memory is the file byte of exactly one segment, and that one is executable. */
  lemma EntryIsFileBacked(raw: Buffer, order: seq<nat>, memory: Memory) returns (owner: nat)
    requires Admissible(raw) && IsOrder(order, |Segments(raw)|)
    ensures owner < |Segments(raw)|
    ensures (forall i | 0 <= i < |Segments(raw)| :: SegmentOk(raw, Segments(raw)[i]))
    ensures var s := Segments(raw)[owner];
            && s.Executable() && !s.Writable() && s.FileBacks(Entry(raw))
            && s.offset + (Entry(raw) - s.virtual) < |raw|
            && var loaded := LoadInOrder(raw, Segments(raw), order, memory);
            && Entry(raw) in loaded && loaded[Entry(raw)] == raw[s.offset + (Entry(raw) - s.virtual)]
    ensures forall i | 0 <= i < |Segments(raw)| && Segments(raw)[i].Covers(Entry(raw)) :: i == owner
  {
    hide SectionsOk, ScanOk, SpanBounded, Entry, LoadInOrder, SegmentOk, Loads, IsOrder;
    Loadable(raw);
    var segments := Segments(raw);
    owner :| 0 <= owner < |segments| && segments[owner].Executable() && segments[owner].FileBacks(Entry(raw));
    EntryByte(raw, segments, owner, Entry(raw), order, memory);
  }

  lemma EntryByte(raw: Buffer, segments: seq<Header>, owner: nat, entry: nat, order: seq<nat>, memory: Memory)
    requires forall i | 0 <= i < |segments| :: SegmentOk(raw, segments[i])
    requires OneOwner(segments) && IsOrder(order, |segments|)
    requires owner < |segments| && segments[owner].Executable() && segments[owner].FileBacks(entry)
    ensures var s := segments[owner];
            && !s.Writable() && s.offset + (entry - s.virtual) < |raw|
            && var loaded := LoadInOrder(raw, segments, order, memory);
            && entry in loaded && loaded[entry] == raw[s.offset + (entry - s.virtual)]
    ensures forall i | 0 <= i < |segments| && segments[i].Covers(entry) :: i == owner
  {
    var s := segments[owner];
    assert SegmentOk(raw, s);
    assert !s.Writable() && s.Covers(entry) && s.offset + (entry - s.virtual) < |raw|;
    hide SegmentOk;
    LoadedByte(raw, segments, order, memory, entry);
    assert owner in order;
  }

  // What an admitted file may say, in its own bytes.

  ghost predicate ZeroOrPower2(value: nat) { value == 0 || exists k: nat :: value == Pow2(k) }

  /**
   * The program header at this position is unused, a loadable segment, the stack or the header table
   * itself. The stack is empty and never executable; the table is the one of the file header, and
   * read only; a segment is readable, not both writable and executable, and lies in one canonical half.
   */
  ghost predicate HeaderAllowed(raw: Buffer, at: nat)
    requires 64 <= |raw| && at + 56 <= |raw|
  {
    var kind, flags, offset := Field(raw, at, 4), Field(raw, at + 4, 4), Field(raw, at + 8, 8);
    var virtual, filesz, memsz := Field(raw, at + 16, 8), Field(raw, at + 32, 8), Field(raw, at + 40, 8);
    var align := Field(raw, at + 48, 8);
    kind == 0 ||
    (&& kind in {1, 6, 0x6474_E551} && offset + filesz <= |raw| && ZeroOrPower2(align)
     && (kind == 0x6474_E551 ==> flags in {0, 2, 4, 6} && filesz == 0 && memsz == 0)
     && (kind == 6 ==>
           && flags == 4 && offset == Field(raw, 32, 8) && filesz == 56 * Field(raw, 56, 2) && memsz == filesz)
     && (kind == 1 ==>
           && flags in {4, 5, 6} && 0 < virtual && 0 < memsz && filesz <= memsz
           && (virtual + memsz <= 0x8000_0000_0000
               || 0xFFFF_8000_0000_0000 <= virtual < virtual + memsz <= 0x1_0000_0000_0000_0000 - 4096)
           && virtual % 4096 == offset % 4096 && (align > 1 ==> virtual % align == offset % align)))
  }

  /** The check of one program header accepts exactly what is allowed there. */
  lemma HeaderMeans(raw: Buffer, at: nat)
    requires 64 <= |raw| && at + 56 <= |raw|
    ensures HeaderOk(raw, HeaderAt(raw, at)) <==> HeaderAllowed(raw, at)
  {
    hide Field, Power2OrZero, ZeroOrPower2;
    var h := HeaderAt(raw, at);
    AlignmentMeans(h.align);
    if h.kind == 1 {
      SegmentMeans(raw, h);
    }
  }

  lemma AlignmentMeans(value: nat)
    ensures Power2OrZero(value) <==> ZeroOrPower2(value)
  {
    hide Power2OrZero;
    Power2TestExact(value);
    if value != 0 && ZeroOrPower2(value) {
      var k: nat :| value == Pow2(k);
      Doubling(k);
    }
  }

  lemma SegmentMeans(raw: Buffer, h: Header)
    ensures SegmentOk(raw, h) <==>
              && h.flags in {4, 5, 6} && 0 < h.virtual && 0 < h.memsz && h.filesz <= h.memsz
              && h.offset + h.filesz <= |raw| && Power2OrZero(h.align)
              && (h.virtual + h.memsz <= 0x8000_0000_0000
                  || 0xFFFF_8000_0000_0000 <= h.virtual < h.virtual + h.memsz <= 0x1_0000_0000_0000_0000 - 4096)
              && h.virtual % 4096 == h.offset % 4096 && (h.align > 1 ==> h.virtual % h.align == h.offset % h.align)
  {
    hide Power2OrZero;
    FlagsMean(h);
    if h.memsz > 0 && h.Last() <= MAX_U64 {
      OneHalf(h.virtual, h.virtual + h.memsz - 1);
    }
  }

  lemma FlagsMean(h: Header)
    ensures h.flags < 8 && h.Readable() && h.flags % 4 != 3 <==> h.flags in {4, 5, 6}
  {
    assert h.flags < 8 ==> h.flags in {0, 1, 2, 3, 4, 5, 6, 7};
  }

  /** Both ends are canonical and in the same half. */
  lemma OneHalf(first: nat, last: nat)
    requires first <= last <= MAX_U64
    ensures Canonical(first) && Canonical(last) && first / 0x8000_0000_0000 == last / 0x8000_0000_0000
            <==> last < 0x8000_0000_0000 || 0xFFFF_8000_0000_0000 <= first
  {
  }

  /** Of an admitted file: the kinds of its program headers, and which of them can be executed. */
  lemma AdmittedHeader(raw: Buffer, i: nat)
    requires Admissible(raw) && i < Field(raw, 56, 2)
    ensures var at := Field(raw, 32, 8) + i * 56;
            && at + 56 <= |raw| && HeaderAllowed(raw, at)
            && Field(raw, at, 4) !in {2, 3, 7}
            && (Field(raw, at, 4) == 1 <==> HeaderAt(raw, at) in Segments(raw))
            && (Field(raw, at, 4) != 0 && Field(raw, at + 4, 4) % 2 == 1 ==> Field(raw, at, 4) == 1)
  {
    hide SectionsOk, HeaderOk, OrderedAndDisjoint, EntryCovered, SpanBounded, HeaderAllowed, Field, Canonical;
    HeaderReadsInside(raw, i);
    var at := TableOffset(raw) + i * 56;
    assert HeaderNumber(raw, i) == HeaderAt(raw, at);
    assert HeaderOk(raw, HeaderNumber(raw, i));
    HeaderMeans(raw, at);
    AllowedKinds(raw, at);
    LoadsAreHeaders(raw, TableCount(raw));
    if Field(raw, at, 4) == 1 {
      LoadsHoldAll(raw, TableCount(raw), i);
    }
  }

  lemma AllowedKinds(raw: Buffer, at: nat)
    requires 64 <= |raw| && at + 56 <= |raw| && HeaderAllowed(raw, at)
    ensures Field(raw, at, 4) in {0, 1, 6, 0x6474_E551}
    ensures Field(raw, at, 4) !in {0, 1} ==> Field(raw, at + 4, 4) % 2 == 0
  {
  }

  lemma {:induction false} LoadsHoldAll(raw: Buffer, n: nat, i: nat)
    requires FileHeaderOk(raw) && i < n <= TableCount(raw) && HeaderNumber(raw, i).kind == 1
    ensures HeaderNumber(raw, i) in Loads(raw, n)
    decreases n
  {
    hide FileHeaderOk, HeaderNumber, TableCount, Field;
    if i < n - 1 {
      LoadsHoldAll(raw, n - 1, i);
    }
  }

  /**
   * The section at this position is no relocation, dynamic, dynamic symbol or thread-local section,
   * and what it has in the file lies inside it.
   */
  ghost predicate SectionAllowed(raw: Buffer, at: nat)
    requires at + 64 <= |raw|
  {
    var kind, flags := Field(raw, at + 4, 4), Field(raw, at + 8, 8);
    var offset, size, align := Field(raw, at + 24, 8), Field(raw, at + 32, 8), Field(raw, at + 48, 8);
    && kind !in {4, 6, 9, 11, 19} && flags % 0x800 < 0x400
    && (if kind == 8 then offset <= |raw| else offset + size <= |raw|)
    && ZeroOrPower2(align)
  }

  lemma SectionMeans(raw: Buffer, at: nat)
    requires at + 64 <= |raw|
    ensures SectionOk(raw, at) <==> SectionAllowed(raw, at)
  {
    hide Field, Power2OrZero, ZeroOrPower2;
    AlignmentMeans(Field(raw, at + 48, 8));
    BitTen(Field(raw, at + 8, 8));
  }

  lemma BitTen(flags: nat)
    ensures flags / 0x400 % 2 == 0 <==> flags % 0x800 < 0x400
  {
    var high, low := flags / 0x800, flags % 0x800;
    assert flags / 0x400 == 2 * high + low / 0x400;
  }

  /** Of an admitted file: each of its sections. */
  lemma AdmittedSection(raw: Buffer, i: nat)
    requires Admissible(raw) && Field(raw, 40, 8) != 0 && i < Field(raw, 60, 2)
    ensures var at := Field(raw, 40, 8) + i * 64; at + 64 <= |raw| && SectionAllowed(raw, at)
  {
    hide ScanOk, EntryCovered, SpanBounded, Field, Canonical, SectionOk, SectionAllowed;
    HeaderReadsInside(raw, i);
    SectionMeans(raw, SectionOffset(raw) + i * 64);
  }

  /**
   * A static x86-64 executable whose file header, program headers and section headers lie in it
   * without an overlap; its entry is an address of one canonical half.
   */
  predicate TablesAllowed(raw: Buffer) {
    && 64 <= |raw| <= 64 * 1024 * 1024
    && raw[..16] == [0x7F, 0x45, 0x4C, 0x46, 2, 1, 1, 0, 0, 0, 0, 0, 0, 0, 0, 0]
    && Field(raw, 16, 2) == 2 && Field(raw, 18, 2) == 62 && Field(raw, 20, 4) == 1 && Field(raw, 48, 4) == 0
    && Field(raw, 52, 2) == 64 && Field(raw, 54, 2) == 56 && 1 <= Field(raw, 56, 2) <= 64
    && (var entry := Field(raw, 24, 8); 0 < entry < 0x8000_0000_0000 || 0xFFFF_8000_0000_0000 <= entry)
    && var programs, sections := Field(raw, 32, 8), Field(raw, 40, 8);
    && var programsEnd, sectionsEnd := programs + 56 * Field(raw, 56, 2), sections + 64 * Field(raw, 60, 2);
    && 64 <= programs < programsEnd <= |raw| && programs % 8 == 0
    && if sections == 0 then Field(raw, 58, 2) == Field(raw, 60, 2) == Field(raw, 62, 2) == 0
       else
         && 64 <= sections < sectionsEnd <= |raw| && sections % 8 == 0
         && (programsEnd <= sections || sectionsEnd <= programs)
         && Field(raw, 58, 2) == 64 && Field(raw, 62, 2) < Field(raw, 60, 2) <= 4096
  }

  lemma TablesMean(raw: Buffer)
    ensures FileHeaderOk(raw) && SectionTableShape(raw) && Entry(raw) != 0 && Canonical(Entry(raw))
            <==> TablesAllowed(raw)
  {
    hide Field;
  }

  /** Of an admitted file: its three tables. */
  lemma AdmittedTables(raw: Buffer)
    requires Admissible(raw)
    ensures TablesAllowed(raw)
  {
    hide ScanOk, EntryCovered, SpanBounded, Field, SectionOk, FileHeaderOk, SectionTableShape, TablesAllowed, Canonical;
    TablesMean(raw);
  }

  /** A page belongs to a segment when one of its addresses does. */
  lemma OnPageMeans(h: Header, page: nat)
    requires h.memsz > 0
    ensures h.OnPage(page) <==> exists a: nat :: h.Covers(a) && a / 4096 == page
  {
    if h.OnPage(page) {
      var a := if page * PAGE < h.virtual then h.virtual else page * PAGE;
      assert h.Covers(a) && a / 4096 == page;
    }
  }

  /** Two segments are refused together exactly when an address of each lies in the same page. */
  lemma OverlapMeans(a: Header, b: Header)
    requires a.memsz > 0 && b.memsz > 0
    ensures PagesOverlap(a, b)
            <==> exists x: nat, y: nat :: a.Covers(x) && b.Covers(y) && x / 4096 == y / 4096
  {
    hide Header.OnPage;
    if PagesOverlap(a, b) {
      var page := SharedPage(a, b);
      OnPageMeans(a, page);
      OnPageMeans(b, page);
      var x: nat :| a.Covers(x) && x / 4096 == page;
      var y: nat :| b.Covers(y) && y / 4096 == page;
    }
    if x: nat, y: nat :| a.Covers(x) && b.Covers(y) && x / 4096 == y / 4096 {
      OnPageMeans(a, x / 4096);
      OnPageMeans(b, x / 4096);
      SharedMeansOverlap(a, b, x / 4096);
    }
  }

  lemma SharedPage(a: Header, b: Header) returns (page: nat)
    requires a.memsz > 0 && b.memsz > 0 && PagesOverlap(a, b)
    ensures a.OnPage(page) && b.OnPage(page)
  {
    hide Header.PageStart, Header.PageEnd;
    var start := if a.PageStart() >= b.PageStart() then a.PageStart() else b.PageStart();
    WholePages(a);
    WholePages(b);
    page := start / PAGE;
    PageNumber(start);
  }

  lemma PageNumber(start: nat)
    requires start % PAGE == 0
    ensures start / PAGE * PAGE == start
  {
  }

  lemma WholePages(h: Header)
    requires h.memsz > 0
    ensures h.PageStart() % PAGE == 0 && h.PageStart() < h.PageEnd()
  {
  }

  lemma SharedMeansOverlap(a: Header, b: Header, page: nat)
    requires a.OnPage(page) && b.OnPage(page)
    ensures PagesOverlap(a, b)
  {
  }

  /** The entry is a byte of the file in an executable segment. */
  lemma EntryMeans(segments: seq<Header>, entry: nat)
    ensures EntryCovered(segments, entry)
            <==> exists s | s in segments :: s.flags % 2 == 1 && s.virtual <= entry && entry - s.virtual < s.filesz
  {
    if EntryCovered(segments, entry) {
      var i :| 0 <= i < |segments| && segments[i].Executable() && segments[i].FileBacks(entry);
      assert segments[i] in segments;
    }
    if s :| s in segments && s.flags % 2 == 1 && s.virtual <= entry && entry - s.virtual < s.filesz {
      var i :| 0 <= i < |segments| && segments[i] == s;
    }
  }

  /** The image in memory, byte by byte: of each segment the bytes of the file, and zeros behind them. */
  lemma LoadedImage(raw: Buffer, order: seq<nat>, memory: Memory, i: nat, k: nat)
    requires Admissible(raw) && IsOrder(order, |Segments(raw)|)
    requires i < |Segments(raw)| && k < Segments(raw)[i].memsz
    ensures (forall j | 0 <= j < |Segments(raw)| :: SegmentOk(raw, Segments(raw)[j]))
    ensures forall j | 0 <= j < |order| :: order[j] < |Segments(raw)|
    ensures Segments(raw)[i].offset + Segments(raw)[i].filesz <= |raw|
    ensures var s := Segments(raw)[i];
            var loaded := LoadInOrder(raw, Segments(raw), order, memory);
            && s.virtual + k in loaded
            && loaded[s.virtual + k] == if k < s.filesz then raw[s.offset + k] else 0
  {
    hide Admissible, IsOrder, LoadInOrder, SegmentOk;
    Loadable(raw);
    var segments := Segments(raw);
    InOrder(order, |segments|, i);
    LoadedByte(raw, segments, order, memory, segments[i].virtual + k);
    FileInside(raw, segments[i]);
  }

  lemma FileInside(raw: Buffer, s: Header)
    requires SegmentOk(raw, s)
    ensures s.offset + s.filesz <= |raw|
  {
  }

  lemma InOrder(order: seq<nat>, n: nat, i: nat)
    requires IsOrder(order, n) && i < n
    ensures i in order && forall k | 0 <= k < |order| :: order[k] < n
  {
  }

  // A smallest admissible file: one segment that holds the headers and one instruction.

  function TinyHeader(): (s: Buffer)
    ensures |s| == 64
  {
    IDENT + (ToLE(2, 2) + ToLE(62, 2) + ToLE(1, 4)) + ToLE(0x1_0078, 8) + ToLE(64, 8) + ToLE(0, 8)
    + (ToLE(0, 4) + ToLE(64, 2) + ToLE(56, 2)) + (ToLE(1, 2) + ToLE(0, 2) + ToLE(0, 2) + ToLE(0, 2))
  }

  function TinyProgram(): (s: Buffer)
    ensures |s| == 56
  {
    (ToLE(1, 4) + ToLE(5, 4)) + ToLE(0, 8) + ToLE(0x1_0000, 8) + ToLE(0, 8) + ToLE(121, 8) + ToLE(121, 8) + ToLE(1, 8)
  }

  function Tiny(): (s: Buffer)
    ensures |s| == 121
  {
    TinyHeader() + TinyProgram() + [0xC3]
  }

  lemma FieldInside(raw: Buffer, low: nat, high: nat, from: nat, k: nat, n: nat)
    requires low <= high <= |raw| && from + k <= high - low
    requires raw[low..high][from..from + k] == ToLE(n, k) && n < Pow256(k)
    ensures Field(raw, low + from, k) == n
  {
    hide FromLE, ToLE, Pow256;
    SliceOfSlice(raw, low, high, from, from + k);
    FromLEToLE(n, k);
  }

  /** The header in five parts: the identification, what kind of file, three addresses, two rows of sizes. */
  lemma TinyParts(raw: Buffer)
    requires |raw| == 121 && raw[..64] == TinyHeader()
    ensures raw[..16] == IDENT
    ensures raw[16..24] == ToLE(2, 2) + (ToLE(62, 2) + (ToLE(1, 4) + []))
    ensures raw[24..48] == ToLE(0x1_0078, 8) + (ToLE(64, 8) + (ToLE(0, 8) + []))
    ensures raw[48..56] == ToLE(0, 4) + (ToLE(64, 2) + (ToLE(56, 2) + []))
    ensures raw[56..64] == ToLE(1, 2) + (ToLE(0, 2) + (ToLE(0, 2) + (ToLE(0, 2) + [])))
  {
    hide ToLE;
    var kind := ToLE(2, 2) + ToLE(62, 2) + ToLE(1, 4);
    var sizes := ToLE(0, 4) + ToLE(64, 2) + ToLE(56, 2);
    var counts := ToLE(1, 2) + ToLE(0, 2) + ToLE(0, 2) + ToLE(0, 2);
    var a, b, c := ToLE(0x1_0078, 8), ToLE(64, 8), ToLE(0, 8);
    FiveParts(IDENT, kind, a, b, c, sizes, counts);
    assert TinyHeader() == IDENT + kind + a + b + c + sizes + counts;
    var part := raw[0..64];
    assert part == raw[..64];
    SliceOfSlice(raw, 0, 64, 0, 16);
    SliceOfSlice(raw, 0, 64, 16, 24);
    SliceOfSlice(raw, 0, 64, 24, 48);
    SliceOfSlice(raw, 0, 64, 48, 56);
    SliceOfSlice(raw, 0, 64, 56, 64);
    ToTheRight(ToLE(2, 2), ToLE(62, 2), ToLE(1, 4));
    ToTheRight(a, b, c);
    ToTheRight(ToLE(0, 4), ToLE(64, 2), ToLE(56, 2));
    ToTheRight(ToLE(1, 2) + ToLE(0, 2), ToLE(0, 2), ToLE(0, 2));
    ToTheRight(ToLE(1, 2), ToLE(0, 2), ToLE(0, 2) + (ToLE(0, 2) + []));
  }

  lemma ToTheRight(a: Buffer, b: Buffer, c: Buffer)
    ensures a + b + c == a + (b + c) == a + (b + (c + []))
  {
    assert c + [] == c;
  }

  lemma FiveParts(ident: Buffer, kind: Buffer, a: Buffer, b: Buffer, c: Buffer, sizes: Buffer, counts: Buffer)
    requires |ident| == 16 && |kind| == |a| == |b| == |c| == |sizes| == |counts| == 8
    ensures var s := ident + kind + a + b + c + sizes + counts;
            && |s| == 64 && s[0..16] == ident && s[16..24] == kind && s[24..48] == a + b + c
            && s[48..56] == sizes && s[56..64] == counts
  {
  }

  lemma TinyFields(raw: Buffer)
    requires |raw| == 121 && raw[..64] == TinyHeader()
    ensures raw[..16] == IDENT && Field(raw, 16, 2) == 2 && Field(raw, 18, 2) == 62 && Field(raw, 20, 4) == 1
    ensures Entry(raw) == 0x1_0078 && TableOffset(raw) == 64 && SectionOffset(raw) == 0
    ensures Field(raw, 48, 4) == 0 && Field(raw, 52, 2) == 64 && Field(raw, 54, 2) == 56
    ensures TableCount(raw) == 1 && SectionCount(raw) == 0 && Field(raw, 58, 2) == 0 && Field(raw, 62, 2) == 0
  {
    hide FromLE, ToLE, Pow256, Field, TinyHeader;
    Pow256Values();
    TinyParts(raw);
    FirstField(raw, 16, 24, 2, 2, ToLE(62, 2) + (ToLE(1, 4) + []));
    FirstField(raw, 18, 24, 2, 62, ToLE(1, 4) + []);
    FirstField(raw, 20, 24, 4, 1, []);
    FirstField(raw, 24, 48, 8, 0x1_0078, ToLE(64, 8) + (ToLE(0, 8) + []));
    FirstField(raw, 32, 48, 8, 64, ToLE(0, 8) + []);
    FirstField(raw, 40, 48, 8, 0, []);
    FirstField(raw, 48, 56, 4, 0, ToLE(64, 2) + (ToLE(56, 2) + []));
    FirstField(raw, 52, 56, 2, 64, ToLE(56, 2) + []);
    FirstField(raw, 54, 56, 2, 56, []);
    FirstField(raw, 56, 64, 2, 1, ToLE(0, 2) + (ToLE(0, 2) + (ToLE(0, 2) + [])));
    FirstField(raw, 58, 64, 2, 0, ToLE(0, 2) + (ToLE(0, 2) + []));
    FirstField(raw, 60, 64, 2, 0, ToLE(0, 2) + []);
    FirstField(raw, 62, 64, 2, 0, []);
  }

  /** The first field of a stretch of the file, and what is left of it. */
  lemma FirstField(raw: Buffer, low: nat, high: nat, k: nat, n: nat, rest: Buffer)
    requires low <= high <= |raw| && n < Pow256(k) && raw[low..high] == ToLE(n, k) + rest
    ensures low + k <= high && Field(raw, low, k) == n && raw[low + k..high] == rest
  {
    hide FromLE, ToLE, Pow256, Field;
    var row := raw[low..high];
    assert row[0..k] == ToLE(n, k) && row[k..|row|] == rest;
    FieldInside(raw, low, high, 0, k, n);
    SliceOfSlice(raw, low, high, k, high - low);
  }

  lemma TinySegment(raw: Buffer)
    requires |raw| == 121 && raw[64..120] == TinyProgram()
    ensures HeaderAt(raw, 64) == Header(1, 5, 0, 0x1_0000, 121, 121, 1)
  {
    hide FromLE, ToLE, Pow256, Field;
    Pow256Values();
    var part := raw[64..120];
    assert part[0..4] == ToLE(1, 4) && part[4..8] == ToLE(5, 4) && part[8..16] == ToLE(0, 8);
    FieldInside(raw, 64, 120, 0, 4, 1);
    FieldInside(raw, 64, 120, 4, 4, 5);
    FieldInside(raw, 64, 120, 8, 8, 0);
    assert part[16..24] == ToLE(0x1_0000, 8) && part[32..40] == ToLE(121, 8);
    FieldInside(raw, 64, 120, 16, 8, 0x1_0000);
    FieldInside(raw, 64, 120, 32, 8, 121);
    assert part[40..48] == ToLE(121, 8);
    assert part[48..56] == part[48..] == ToLE(1, 8);
    FieldInside(raw, 64, 120, 40, 8, 121);
    FieldInside(raw, 64, 120, 48, 8, 1);
  }

  /** The check accepts some file. */
  lemma TinyAdmissible()
    ensures Admissible(Tiny())
  {
    hide Field, TinyHeader, TinyProgram, BitAnd;
    var raw := Tiny();
    var h := Header(1, 5, 0, 0x1_0000, 121, 121, 1);
    assert raw[..64] == TinyHeader() && raw[64..120] == TinyProgram();
    TinyFields(raw);
    TinySegment(raw);
    SmallTest();
    TinyLoads(raw, h);
    assert SegmentOk(raw, h);
    assert Loads(raw, 1)[0] == h && h.Executable() && h.FileBacks(0x1_0078);
  }

  lemma TinyLoads(raw: Buffer, h: Header)
    requires FileHeaderOk(raw) && TableCount(raw) == 1 && HeaderNumber(raw, 0) == h && h.kind == 1
    ensures Loads(raw, 1) == [h]
  {
    assert Loads(raw, 0) == [];
  }
}
