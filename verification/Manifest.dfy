/** The bundle manifest: a 64-byte header and sorted 128-byte entries, packed and strictly parsed. */
module Manifest {
  import opened Bytes
  import Decimal

  const MAGIC: Buffer := [0x56, 0x53, 0x4B, 0x2D, 0x42, 0x55, 0x4E, 0x44, 0x4C, 0x45, 0x2D, 0x76, 0x31, 0, 0, 0]
  const MAX_CONFIG: nat := 1024 * 1024
  const MAX_ENTRIES: nat := 66
  const MAX_MANIFEST: nat := 64 + MAX_ENTRIES * 128
  const ROLE_CONFIG: nat := 1
  const ROLE_CORE: nat := 2
  const ROLE_SERVICE: nat := 3

  datatype Entry = Entry(role: nat, instance: nat, size: nat, sha256: Buffer, sha512: Buffer)
  datatype Contents = Contents(target: nat, epoch: nat, entries: seq<Entry>)

  function Zeros(k: nat): (s: Buffer)
    ensures |s| == k
  {
    seq(k, _ => 0)
  }

  /** `_filename` */
  function FileName(role: nat, instance: nat): (r: Option<string>) {
    if role == ROLE_CONFIG && instance == 0 then Some("config.plist")
    else if role == ROLE_CORE && instance == 0 then Some("core.elf")
    else if role == ROLE_SERVICE && 1 <= instance <= 64 then Some("cell-" + Decimal.Print(instance) + ".elf")
    else None
  }

  function SizeLimit(role: nat): nat { if role == ROLE_CONFIG then MAX_CONFIG else MAX_ELF }

  predicate EntryOk(e: Entry) {
    && FileName(e.role, e.instance).Some?
    && 0 < e.size <= SizeLimit(e.role)
    && |e.sha256| == 32 && |e.sha512| == 64
  }

  /** What an entry may be: the configuration up to 1 MiB, the core, or a service from 1 to 64, up to 64 MiB. */
  lemma EntryMeans(e: Entry)
    ensures EntryOk(e) <==>
              && 0 < e.size && |e.sha256| == 32 && |e.sha512| == 64
              && ((e.role == 1 && e.instance == 0 && e.size <= 1_048_576)
                  || (e.role == 2 && e.instance == 0 && e.size <= 67_108_864)
                  || (e.role == 3 && 1 <= e.instance <= 64 && e.size <= 67_108_864))
  {
  }

  predicate Before(a: Entry, b: Entry) {
    a.role < b.role || (a.role == b.role && a.instance < b.instance)
  }

  predicate Sorted(entries: seq<Entry>) {
    forall i, j | 0 <= i < j < |entries| :: Before(entries[i], entries[j])
  }

  predicate TargetEpochOk(target: nat, epoch: nat) { target in {26, 27} && 1 <= epoch <= MAX_U64 }

  /** What a packed manifest must describe to be accepted. */
  predicate ContentsOk(m: Contents) {
    && TargetEpochOk(m.target, m.epoch)
    && 3 <= |m.entries| <= MAX_ENTRIES
    && (forall i | 0 <= i < |m.entries| :: EntryOk(m.entries[i]))
    && Sorted(m.entries)
    && m.entries[0].role == ROLE_CONFIG && m.entries[1].role == ROLE_CORE && m.entries[2].role == ROLE_SERVICE
  }

  // ------------------------------------------------------------------- packing

  function PackEntry(e: Entry): (s: Buffer)
    requires |e.sha256| == 32 && |e.sha512| == 64
    ensures |s| == 128
  {
    ToLE(e.role, 4) + ToLE(e.instance, 4) + ToLE(e.size, 8) + e.sha256 + e.sha512 + (Zeros(4) + Zeros(12))
  }

  function PackEntries(entries: seq<Entry>): (s: Buffer)
    requires forall i | 0 <= i < |entries| :: |entries[i].sha256| == 32 && |entries[i].sha512| == 64
    ensures |s| == 128 * |entries|
  {
    if entries == [] then []
    else PackEntries(entries[..|entries| - 1]) + PackEntry(entries[|entries| - 1])
  }

  function PackHeader(target: nat, epoch: nat, count: nat): (s: Buffer)
    ensures |s| == 64
  {
    MAGIC
    + (ToLE(1, 2) + ToLE(64, 2) + ToLE(128, 2) + ToLE(1, 2))
    + ToLE(64 + count * 128, 4) + ToLE(count, 4) + Zeros(8) + ToLE(epoch, 8) + ToLE(target, 4) + Zeros(12)
  }

  /** The manifest bytes `create_bundle` signs. */
  function Pack(m: Contents): (s: Buffer)
    requires forall i | 0 <= i < |m.entries| :: |m.entries[i].sha256| == 32 && |m.entries[i].sha512| == 64
    ensures |s| == 64 + 128 * |m.entries|
  {
    PackHeader(m.target, m.epoch, |m.entries|) + PackEntries(m.entries)
  }

  // ------------------------------------------------------------------- parsing

  predicate HeaderOk(raw: Buffer, expectedTarget: nat, minimumEpoch: nat) {
    && 64 <= |raw| <= MAX_MANIFEST
    && raw[..16] == MAGIC
    && Field(raw, 16, 2) == 1 && Field(raw, 18, 2) == 64 && Field(raw, 20, 2) == 128 && Field(raw, 22, 2) == 1
    && Field(raw, 24, 4) == |raw| && 3 <= Field(raw, 28, 4) <= MAX_ENTRIES
    && Field(raw, 24, 4) == 64 + Field(raw, 28, 4) * 128
    && Field(raw, 32, 4) == 0 && Field(raw, 36, 4) == 0 && raw[52..64] == Zeros(12)
    && Field(raw, 48, 4) == expectedTarget && Field(raw, 40, 8) != 0 && Field(raw, 40, 8) >= minimumEpoch
  }

  function Count(raw: Buffer): nat
    requires |raw| >= 64
  {
    Field(raw, 28, 4)
  }

  function EntryAt(raw: Buffer, at: nat): (e: Entry)
    requires at + 128 <= |raw|
    ensures |e.sha256| == 32 && |e.sha512| == 64
  {
    Entry(Field(raw, at, 4), Field(raw, at + 4, 4), Field(raw, at + 8, 8),
          raw[at + 16..at + 48], raw[at + 48..at + 112])
  }

  predicate ReservedZero(raw: Buffer, at: nat)
    requires at + 128 <= |raw|
  {
    Field(raw, at + 112, 4) == 0 && raw[at + 116..at + 128] == Zeros(12)
  }

  function Unpack(raw: Buffer): Contents
    requires |raw| >= 64 && |raw| == 64 + Count(raw) * 128
  {
    Contents(Field(raw, 48, 4), Field(raw, 40, 8),
             seq(Count(raw), i requires 0 <= i < Count(raw) => EntryAt(raw, 64 + i * 128)))
  }

  /** The byte strings the parser accepts, read field by field. */
  predicate Accepts(raw: Buffer, expectedTarget: nat, minimumEpoch: nat) {
    && TargetEpochOk(expectedTarget, minimumEpoch)
    && HeaderOk(raw, expectedTarget, minimumEpoch)
    && (forall i | 0 <= i < Count(raw) :: ReservedZero(raw, 64 + i * 128))
    && ContentsOk(Unpack(raw))
  }

  /** `parse_manifest` */
  function Parse(raw: Buffer, expectedTarget: nat, minimumEpoch: nat): (r: Result<Contents>) {
    if Accepts(raw, expectedTarget, minimumEpoch) then Ok(Unpack(raw)) else Err("Invalid manifest")
  }

  /** The parser as written: a header check, then one pass over the entries against the previous key. */
  method ParseManifest(raw: Buffer, expectedTarget: nat, minimumEpoch: nat) returns (r: Result<Contents>)
    ensures r.Ok? <==> Parse(raw, expectedTarget, minimumEpoch).Ok?
    ensures r.Ok? ==> r == Parse(raw, expectedTarget, minimumEpoch)
  {
    hide Field, FileName, Before, HeaderOk, ReservedZero, EntryOk, EntryAt;
    if !TargetEpochOk(expectedTarget, minimumEpoch) {
      return Err("Target major or release epoch");
    }
    if !HeaderOk(raw, expectedTarget, minimumEpoch) {
      return Err("Invalid manifest header or reserved fields");
    }
    HeaderFacts(raw, expectedTarget, minimumEpoch);
    var entries: seq<Entry> := [];
    var prior := Entry(0, 0, 0, [], []);
    ghost var all := Unpack(raw).entries;
    for index := 0 to Count(raw)
      invariant entries == all[..index]
      invariant forall i | 0 <= i < index :: ReservedZero(raw, 64 + i * 128) && EntryOk(all[i])
      invariant Sorted(entries)
      invariant prior == if index == 0 then Entry(0, 0, 0, [], []) else all[index - 1]
    {
      var entry := EntryAt(raw, 64 + index * 128);
      assert entry == all[index];
      var problem := CheckEntry(prior, entry, ReservedZero(raw, 64 + index * 128));
      if problem.Some? {
        return Err(problem.value);
      }
      SortedStep(entries, entry);
      assert all[..index + 1] == entries + [entry];
      entries := entries + [entry];
      prior := entry;
    }
    assert entries == all;
    if entries[0].role != ROLE_CONFIG || entries[1].role != ROLE_CORE || entries[2].role != ROLE_SERVICE {
      return Err("Bundle requires one config, one core and at least one service");
    }
    r := Ok(Unpack(raw));
  }

  /** The checks on one entry; the starting key (0, 0) comes before every named entry. */
  method CheckEntry(prior: Entry, entry: Entry, reservedZero: bool) returns (problem: Option<string>)
    requires |entry.sha256| == 32 && |entry.sha512| == 64
    ensures problem.None? <==> EntryOk(entry) && reservedZero && Before(prior, entry)
    ensures prior == Entry(0, 0, 0, [], []) && EntryOk(entry) ==> Before(prior, entry)
  {
    if FileName(entry.role, entry.instance).None? {
      return Some("Invalid role or service instance");
    }
    if !Before(prior, entry) || !reservedZero {
      return Some("Unsorted/duplicate manifest entry or reserved fields");
    }
    if !(0 < entry.size <= SizeLimit(entry.role)) {
      return Some("Manifest blob length outside bounds");
    }
    return None;
  }

  lemma SortedStep(entries: seq<Entry>, e: Entry)
    requires Sorted(entries) && (entries != [] ==> Before(entries[|entries| - 1], e))
    ensures Sorted(entries + [e])
  {
  }

  // -------------------------------------------------------------------- theorems

  lemma EntryRoundTrip(raw: Buffer, at: nat, e: Entry)
    requires at + 128 <= |raw| && EntryOk(e)
    requires raw[at..at + 128] == PackEntry(e)
    ensures EntryAt(raw, at) == e && ReservedZero(raw, at)
  {
    hide FromLE, ToLE, FileName;
    var part := raw[at..at + 128];
    assert part[0..4] == ToLE(e.role, 4) && part[4..8] == ToLE(e.instance, 4) && part[8..16] == ToLE(e.size, 8);
    assert part[16..48] == e.sha256 && part[48..112] == e.sha512;
    assert part[112..116] == Zeros(4) && part[116..128] == Zeros(12);
    EntrySlices(raw, at);
    Pow256Values();
    FileNameBounds(e.role, e.instance);
    FromLEToLE(e.role, 4);
    FromLEToLE(e.instance, 4);
    FromLEToLE(e.size, 8);
    ZeroField(4);
  }

  lemma FileNameBounds(role: nat, instance: nat)
    requires FileName(role, instance).Some?
    ensures 1 <= role <= 3 && instance <= 64
  {
  }

  lemma EntrySlices(raw: Buffer, at: nat)
    requires at + 128 <= |raw|
    ensures var part := raw[at..at + 128];
            && raw[at..at + 4] == part[0..4] && raw[at + 4..at + 8] == part[4..8] && raw[at + 8..at + 16] == part[8..16]
            && raw[at + 16..at + 48] == part[16..48] && raw[at + 48..at + 112] == part[48..112]
            && raw[at + 112..at + 116] == part[112..116] && raw[at + 116..at + 128] == part[116..128]
  {
    SliceOfSlice(raw, at, at + 128, 0, 4);
    SliceOfSlice(raw, at, at + 128, 4, 8);
    SliceOfSlice(raw, at, at + 128, 8, 16);
    SliceOfSlice(raw, at, at + 128, 16, 48);
    SliceOfSlice(raw, at, at + 128, 48, 112);
    SliceOfSlice(raw, at, at + 128, 112, 116);
    SliceOfSlice(raw, at, at + 128, 116, 128);
  }

  lemma {:induction false} ZeroField(k: nat)
    ensures FromLE(Zeros(k)) == 0 && ToLE(0, k) == Zeros(k)
  {
    if k > 0 {
      ZeroField(k - 1);
      assert Zeros(k)[1..] == Zeros(k - 1);
      assert Zeros(k) == [0] + Zeros(k - 1);
    }
  }

  lemma FieldIsSlice(s: Buffer, k: nat)
    requires |s| == k
    ensures ToLE(FromLE(s), k) == s
  {
    ToLEFromLE(s);
  }

  lemma EntryCanonical(raw: Buffer, at: nat)
    requires at + 128 <= |raw| && ReservedZero(raw, at)
    ensures PackEntry(EntryAt(raw, at)) == raw[at..at + 128]
  {
    hide FromLE, ToLE;
    var part := raw[at..at + 128];
    EntrySlices(raw, at);
    FieldIsSlice(part[0..4], 4);
    FieldIsSlice(part[4..8], 4);
    FieldIsSlice(part[8..16], 8);
    FieldIsSlice(part[112..116], 4);
    ZeroField(4);
    assert part == part[0..4] + part[4..8] + part[8..16] + part[16..48] + part[48..112]
                   + (part[112..116] + part[116..128]);
  }

  lemma {:induction false} PackedEntryAt(entries: seq<Entry>, i: nat)
    requires forall k | 0 <= k < |entries| :: |entries[k].sha256| == 32 && |entries[k].sha512| == 64
    requires i < |entries|
    ensures PackEntries(entries)[i * 128..i * 128 + 128] == PackEntry(entries[i])
  {
    hide PackEntry;
    var last := |entries| - 1;
    var front, tail := PackEntries(entries[..last]), PackEntry(entries[last]);
    assert PackEntries(entries) == front + tail && |front| == last * 128;
    if i < last {
      PackedEntryAt(entries[..last], i);
      assert (front + tail)[i * 128..i * 128 + 128] == front[i * 128..i * 128 + 128];
    } else {
      SplitThree(front, tail, []);
      assert front + tail + [] == front + tail;
    }
  }

  lemma {:induction false} PackEntriesOf(raw: Buffer, entries: seq<Entry>)
    requires |raw| == 128 * |entries|
    requires forall k | 0 <= k < |entries| :: |entries[k].sha256| == 32 && |entries[k].sha512| == 64
    requires forall k | 0 <= k < |entries| :: raw[k * 128..k * 128 + 128] == PackEntry(entries[k])
    ensures PackEntries(entries) == raw
    decreases |entries|
  {
    hide PackEntry;
    if entries != [] {
      var last := |entries| - 1;
      var front := raw[..last * 128];
      forall k | 0 <= k < last ensures front[k * 128..k * 128 + 128] == PackEntry(entries[k]) {
        SliceOfSlice(raw, 0, last * 128, k * 128, k * 128 + 128);
      }
      PackEntriesOf(front, entries[..last]);
      assert raw == front + raw[last * 128..last * 128 + 128];
    }
  }

  lemma HeaderRoundTrip(raw: Buffer, m: Contents)
    requires ContentsOk(m) && |raw| == 64 + 128 * |m.entries|
    requires raw[..64] == PackHeader(m.target, m.epoch, |m.entries|)
    ensures HeaderOk(raw, m.target, m.epoch)
    ensures Field(raw, 48, 4) == m.target && Field(raw, 40, 8) == m.epoch && Count(raw) == |m.entries|
  {
    hide FromLE, ToLE, EntryOk, Sorted;
    var count := |m.entries|;
    var part := raw[..64];
    assert part[..16] == MAGIC;
    assert part[16..24] == ToLE(1, 2) + ToLE(64, 2) + ToLE(128, 2) + ToLE(1, 2);
    assert part[24..28] == ToLE(64 + count * 128, 4) && part[28..32] == ToLE(count, 4);
    assert part[32..40] == Zeros(8) && part[40..48] == ToLE(m.epoch, 8);
    assert part[48..52] == ToLE(m.target, 4) && part[52..64] == Zeros(12);
    HeaderSlices(raw);
    ConstantFields(part[16..24]);
    Pow256Values();
    FromLEToLE(64 + count * 128, 4);
    FromLEToLE(count, 4);
    FromLEToLE(m.epoch, 8);
    FromLEToLE(m.target, 4);
    ZeroField(4);
    assert part[32..40][..4] == Zeros(4) && part[32..40][4..] == Zeros(4);
  }

  lemma ConstantFields(s: Buffer)
    requires |s| == 8
    ensures s == ToLE(1, 2) + ToLE(64, 2) + ToLE(128, 2) + ToLE(1, 2) <==>
            FromLE(s[0..2]) == 1 && FromLE(s[2..4]) == 64 && FromLE(s[4..6]) == 128 && FromLE(s[6..8]) == 1
  {
    hide FromLE, ToLE;
    assert s == s[0..2] + s[2..4] + s[4..6] + s[6..8];
    Pow256Values();
    FromLEToLE(1, 2);
    FromLEToLE(64, 2);
    FromLEToLE(128, 2);
    FieldIsSlice(s[0..2], 2);
    FieldIsSlice(s[2..4], 2);
    FieldIsSlice(s[4..6], 2);
    FieldIsSlice(s[6..8], 2);
    if s == ToLE(1, 2) + ToLE(64, 2) + ToLE(128, 2) + ToLE(1, 2) {
      assert s[0..2] == ToLE(1, 2) && s[2..4] == ToLE(64, 2) && s[4..6] == ToLE(128, 2) && s[6..8] == ToLE(1, 2);
    }
  }

  lemma HeaderSlices(raw: Buffer)
    requires |raw| >= 64
    ensures var part := raw[..64];
            && raw[..16] == part[..16]
            && raw[16..18] == part[16..24][0..2] && raw[18..20] == part[16..24][2..4]
            && raw[20..22] == part[16..24][4..6] && raw[22..24] == part[16..24][6..8]
            && raw[24..28] == part[24..28] && raw[28..32] == part[28..32]
            && raw[32..36] == part[32..40][..4] && raw[36..40] == part[32..40][4..]
            && raw[40..48] == part[40..48] && raw[48..52] == part[48..52] && raw[52..64] == part[52..64]
  {
    var part := raw[..64];
    assert part[16..24] == raw[16..24] && part[32..40] == raw[32..40];
    SliceOfSlice(raw, 16, 24, 0, 2);
    SliceOfSlice(raw, 16, 24, 2, 4);
    SliceOfSlice(raw, 16, 24, 4, 6);
    SliceOfSlice(raw, 16, 24, 6, 8);
    SliceOfSlice(raw, 32, 40, 0, 4);
    SliceOfSlice(raw, 32, 40, 4, 8);
  }

  lemma HeaderCanonical(raw: Buffer, target: nat, epoch: nat)
    requires HeaderOk(raw, target, epoch)
    ensures raw[..64] == PackHeader(Field(raw, 48, 4), Field(raw, 40, 8), Count(raw))
  {
    hide FromLE, ToLE;
    var part := raw[..64];
    HeaderSlices(raw);
    ConstantFields(part[16..24]);
    FieldIsSlice(part[24..28], 4);
    FieldIsSlice(part[28..32], 4);
    FieldIsSlice(part[40..48], 8);
    FieldIsSlice(part[48..52], 4);
    FieldIsSlice(raw[32..36], 4);
    FieldIsSlice(raw[36..40], 4);
    ZeroField(4);
    assert part[32..40] == raw[32..36] + raw[36..40];
    assert part[32..40] == Zeros(8);
    assert part == part[..16] + part[16..24] + part[24..28] + part[28..32] + part[32..40] + part[40..48]
                   + part[48..52] + part[52..64];
  }

  /** Parsing a packed manifest returns it, for every epoch floor it meets. */
  lemma ParsePack(m: Contents, minimumEpoch: nat)
    requires ContentsOk(m) && 1 <= minimumEpoch <= m.epoch
    ensures Parse(Pack(m), m.target, minimumEpoch) == Ok(m)
  {
    hide PackHeader, PackEntry, Field, EntryOk, FileName;
    DigestSizes(m);
    var raw := Pack(m);
    var header := PackHeader(m.target, m.epoch, |m.entries|);
    assert raw[..64] == header;
    HeaderRoundTrip(raw, m);
    HeaderFloor(raw, m.target, m.epoch, minimumEpoch);
    forall i | 0 <= i < |m.entries|
      ensures 64 + i * 128 + 128 <= |raw|
      ensures EntryAt(raw, 64 + i * 128) == m.entries[i] && ReservedZero(raw, 64 + i * 128)
    {
      PackedEntryAt(m.entries, i);
      assert raw[64..] == PackEntries(m.entries);
      SliceOfSlice(raw, 64, |raw|, i * 128, i * 128 + 128);
      EntryRoundTrip(raw, 64 + i * 128, m.entries[i]);
    }
    assert Unpack(raw).entries == m.entries;
  }

  lemma DigestSizes(m: Contents)
    requires ContentsOk(m)
    ensures forall i | 0 <= i < |m.entries| :: |m.entries[i].sha256| == 32 && |m.entries[i].sha512| == 64
  {
    assert forall i | 0 <= i < |m.entries| :: EntryOk(m.entries[i]);
  }

  lemma HeaderFloor(raw: Buffer, target: nat, epoch: nat, floor: nat)
    requires HeaderOk(raw, target, epoch) && floor <= epoch
    ensures HeaderOk(raw, target, floor)
  {
  }

  /** Whatever is accepted is byte for byte the packing of what was parsed, for the wanted target and floor. */
  lemma PackParse(raw: Buffer, expectedTarget: nat, minimumEpoch: nat)
    requires Parse(raw, expectedTarget, minimumEpoch).Ok?
    ensures var m := Parse(raw, expectedTarget, minimumEpoch).value;
            ContentsOk(m) && Pack(m) == raw && m.target == expectedTarget && m.epoch >= minimumEpoch
  {
    hide PackHeader, PackEntry, Field, EntryOk, FileName;
    var m := Unpack(raw);
    HeaderFacts(raw, expectedTarget, minimumEpoch);
    HeaderCanonical(raw, expectedTarget, minimumEpoch);
    var body := raw[64..];
    forall k | 0 <= k < |m.entries| ensures body[k * 128..k * 128 + 128] == PackEntry(m.entries[k]) {
      EntryCanonical(raw, 64 + k * 128);
      SliceOfSlice(raw, 64, |raw|, k * 128, k * 128 + 128);
    }
    PackEntriesOf(body, m.entries);
    assert raw == raw[..64] + body;
  }

  lemma HeaderFacts(raw: Buffer, target: nat, floor: nat)
    requires HeaderOk(raw, target, floor)
    ensures |raw| >= 64 && |raw| == 64 + Count(raw) * 128 && 3 <= Count(raw) <= MAX_ENTRIES
    ensures Field(raw, 48, 4) == target && floor <= Field(raw, 40, 8) && 1 <= Field(raw, 40, 8) <= MAX_U64
  {
    FromLEBound(raw[40..48]);
    Pow256Values();
  }

  /** An accepted manifest names exactly one config, one core, and then only services, each once. */
  lemma RolesForced(m: Contents, i: nat)
    requires ContentsOk(m) && i < |m.entries|
    ensures m.entries[i].role == ROLE_CONFIG <==> i == 0
    ensures m.entries[i].role == ROLE_CORE <==> i == 1
    ensures m.entries[i].role == ROLE_SERVICE <==> i >= 2
  {
    assert EntryOk(m.entries[i]);
    if i > 2 {
      assert Before(m.entries[2], m.entries[i]);
    }
  }

  /** No two entries of an accepted manifest share a file name. */
  lemma FileNamesDistinct(m: Contents, i: nat, j: nat)
    requires ContentsOk(m) && i < j < |m.entries|
    ensures FileName(m.entries[i].role, m.entries[i].instance) != FileName(m.entries[j].role, m.entries[j].instance)
  {
    var a, b := m.entries[i], m.entries[j];
    RolesForced(m, i);
    RolesForced(m, j);
    assert EntryOk(a) && EntryOk(b) && Before(a, b);
    if a.role == ROLE_SERVICE {
      var nameA, nameB := FileName(a.role, a.instance).value, FileName(b.role, b.instance).value;
      if nameA == nameB {
        assert nameA[5..|nameA| - 4] == Decimal.Print(a.instance);
        assert nameB[5..|nameB| - 4] == Decimal.Print(b.instance);
        Decimal.PrintInjective(a.instance, b.instance);
      }
    } else {
      assert "config.plist"[1] == 'o' && "core.elf"[2] == 'r' && "config.plist"[2] == 'n';
      if b.role == ROLE_SERVICE {
        assert FileName(b.role, b.instance).value[1] == 'e';
      }
    }
  }
}
