/** The configuration schema check and its normal form: GUIDs in lower case, everything else as read. */
module Config {
  import opened Bytes
  import opened Plist

  const MAX_CPUS: nat := 4096
  const MAX_MIB: nat := 0xFFF_FFFF_FFFF
  const CONFORMANCE_PROFILE: string := "arm64-conformance-v1"

  /** A registry field outside the plist value types may be absent (None). */
  datatype RegistryField = Absent | Given(value: Value)
  datatype ProfileEntry = NotADictionary | Fields(fields: map<string, RegistryField>)
  datatype Registry = NoRegistry | NotAMapping | Registered(profiles: map<string, ProfileEntry>)

  // --------------------------------------------------------------------- dictionaries

  function Lookup(entries: seq<Pair>, key: string): (r: Option<Value>) {
    if entries == [] then None
    else if entries[0].key == key then Some(entries[0].value)
    else Lookup(entries[1..], key)
  }

  /** {**d, key: value} for a key that is present: it keeps its place. */
  function Replace(entries: seq<Pair>, key: string, value: Value): (r: seq<Pair>)
    ensures |r| == |entries|
    ensures forall i | 0 <= i < |entries| :: r[i].key == entries[i].key
  {
    if entries == [] then []
    else if entries[0].key == key then [Pair(key, value)] + entries[1..]
    else [entries[0]] + Replace(entries[1..], key, value)
  }

  function Get(v: Value, key: string): Option<Value> {
    if v.Dict? then Lookup(v.entries, key) else None
  }

  function KeySet(entries: seq<Pair>): set<string> {
    set i | 0 <= i < |entries| :: entries[i].key
  }

  predicate HasExactly(v: Value, keys: set<string>) {
    v.Dict? && KeySet(v.entries) == keys
  }

  lemma {:induction false} LookupReplace(entries: seq<Pair>, key: string, value: Value, other: string)
    ensures Lookup(Replace(entries, key, value), other) ==
            if other == key && Lookup(entries, key).Some? then Some(value) else Lookup(entries, other)
    ensures KeySet(Replace(entries, key, value)) == KeySet(entries)
  {
    var replaced := Replace(entries, key, value);
    if entries != [] {
      LookupReplace(entries[1..], key, value, other);
      assert entries[0].key == key ==> replaced[1..] == entries[1..];
      assert entries[0].key != key ==> replaced[1..] == Replace(entries[1..], key, value);
    }
    assert forall i | 0 <= i < |entries| :: replaced[i].key == entries[i].key;
  }

  lemma {:induction false} ReplaceTwice(entries: seq<Pair>, key: string, value: Value)
    ensures Lookup(entries, key) == Some(value) ==> Replace(entries, key, value) == entries
  {
    if entries != [] {
      ReplaceTwice(entries[1..], key, value);
      assert entries == [entries[0]] + entries[1..];
    }
  }

  lemma {:induction false} LookupPresent(entries: seq<Pair>, key: string)
    ensures Lookup(entries, key).Some? <==> key in KeySet(entries)
  {
    if entries != [] {
      LookupPresent(entries[1..], key);
      assert forall i | 0 <= i < |entries| - 1 :: entries[1..][i] == entries[i + 1];
      assert KeySet(entries) == {entries[0].key} + KeySet(entries[1..]) by {
        forall k | k in KeySet(entries) ensures k == entries[0].key || k in KeySet(entries[1..]) {
          var i :| 0 <= i < |entries| && entries[i].key == k;
          if i > 0 { assert entries[1..][i - 1].key == k; }
        }
      }
    }
  }

  // --------------------------------------------------------------------- scalar checks

  function Utf8Length(s: string): nat {
    if s == "" then 0
    else
      var c := s[|s| - 1] as int;
      Utf8Length(s[..|s| - 1]) + (if c < 0x80 then 1 else if c < 0x800 then 2 else if c < 0x1_0000 then 3 else 4)
  }

  predicate IsText(v: Option<Value>, limit: nat) {
    && v.Some? && v.value.Str?
    && var s := v.value.s;
    && s != "" && s == Strip(s) && Utf8Length(s) <= limit
    && forall i | 0 <= i < |s| :: s[i] >= ' ' && s[i] != '\U{7f}'
  }

  predicate IsAlnum(c: char) { 'A' <= c <= 'Z' || 'a' <= c <= 'z' || '0' <= c <= '9' }

  predicate IsId(v: Option<Value>) {
    && IsText(v, 128)
    && var s := v.value.s;
    && |s| <= 128 && IsAlnum(s[0])
    && forall i | 0 <= i < |s| :: IsAlnum(s[i]) || s[i] in {'.', '_', ':', '-'}
  }

  predicate IsHex(c: char) { '0' <= c <= '9' || 'a' <= c <= 'f' || 'A' <= c <= 'F' }

  predicate IsGuid(v: Option<Value>) {
    && IsText(v, 36)
    && var s := v.value.s;
    && |s| == 36
    && (forall i | 0 <= i < 36 :: if i in {8, 13, 18, 23} then s[i] == '-' else IsHex(s[i]))
    && exists i :: 0 <= i < 36 && i !in {8, 13, 18, 23} && s[i] != '0'
  }

  function LowerChar(c: char): (r: char)
    ensures 'A' <= c <= 'F' ==> 'a' <= r <= 'f'
    ensures !('A' <= c <= 'F') ==> r == c
  {
    if 'A' <= c <= 'F' then 'a' + (c - 'A') else c
  }

  /** str(uuid.UUID(s)) for a canonical GUID. */
  function Lower(s: string): (r: string)
    ensures |r| == |s| && forall i | 0 <= i < |s| :: r[i] == LowerChar(s[i])
  {
    seq(|s|, i requires 0 <= i < |s| => LowerChar(s[i]))
  }

  predicate IsLower(s: string) { forall i | 0 <= i < |s| :: !('A' <= s[i] <= 'F') }

  predicate IsHash(v: Option<Value>) {
    && v.Some? && v.value.Str? && |v.value.s| == 64
    && forall i | 0 <= i < 64 :: '0' <= v.value.s[i] <= '9' || 'a' <= v.value.s[i] <= 'f'
  }

  predicate IsInt(v: Option<Value>, low: nat, high: nat) { v.Some? && v.value.Int? && low <= v.value.n <= high }
  predicate IsBool(v: Option<Value>) { v.Some? && v.value.Bool? }
  predicate OneOf(v: Option<Value>, allowed: set<string>) { v.Some? && v.value.Str? && v.value.s in allowed }

  // ------------------------------------------------------------------------- sections

  predicate CpuOk(cpu: Value) {
    && HasExactly(cpu, {"MinimumISA", "Codegen", "HybridScheduling", "VCPUs", "ServiceLogicalCPUs", "SMTPolicy"})
    && OneOf(Get(cpu, "MinimumISA"), {"sse4.2"}) && OneOf(Get(cpu, "Codegen"), {"auto"})
    && OneOf(Get(cpu, "HybridScheduling"), {"capacity-aware"}) && OneOf(Get(cpu, "SMTPolicy"), {"isolate-cells"})
    && (OneOf(Get(cpu, "VCPUs"), {"auto"}) || IsInt(Get(cpu, "VCPUs"), 1, MAX_CPUS))
    && IsInt(Get(cpu, "ServiceLogicalCPUs"), 1, MAX_CPUS)
  }

  predicate SecurityOk(security: Value) {
    && HasExactly(security, {"VMXRequired", "EPTRequired", "IOMMURequired", "InterruptRemappingRequired", "DMABypass"})
    && forall i | 0 <= i < |security.entries| ::
         security.entries[i].value == Bool(security.entries[i].key != "DMABypass")
  }

  predicate MemoryOk(memory: Value) {
    && HasExactly(memory, {"GuestMiB", "HostReserveMiB", "JITCacheMiB"})
    && IsInt(Get(memory, "GuestMiB"), 1, MAX_MIB) && IsInt(Get(memory, "HostReserveMiB"), 1, MAX_MIB)
    && IsInt(Get(memory, "JITCacheMiB"), 1, MAX_MIB)
    && Get(memory, "JITCacheMiB").value.n <= Get(memory, "HostReserveMiB").value.n
    && Get(memory, "GuestMiB").value.n <= MAX_MIB - Get(memory, "HostReserveMiB").value.n
  }

  predicate DeviceOk(device: Value) {
    || device == Str("auto")
    || (&& HasExactly(device, {"Segment", "Bus", "Device", "Function", "VendorID", "DeviceID", "SubsystemVendorID",
                               "SubsystemDeviceID", "RevisionID"})
        && IsInt(Get(device, "Segment"), 0, 65535) && IsInt(Get(device, "Bus"), 0, 255)
        && IsInt(Get(device, "Device"), 0, 31) && IsInt(Get(device, "Function"), 0, 7)
        && IsInt(Get(device, "VendorID"), 1, 65534) && IsInt(Get(device, "DeviceID"), 0, 65535)
        && IsInt(Get(device, "SubsystemVendorID"), 0, 65535) && IsInt(Get(device, "SubsystemDeviceID"), 0, 65535)
        && IsInt(Get(device, "RevisionID"), 0, 255))
  }

  predicate GraphicsOk(graphics: Value) {
    && HasExactly(graphics, {"Device", "DriverPolicy", "MinimumProfile", "OnUnsupported"})
    && OneOf(Get(graphics, "DriverPolicy"), {"allowlist"})
    && OneOf(Get(graphics, "MinimumProfile"), {"display-only", "vfgp-base1"})
    && OneOf(Get(graphics, "OnUnsupported"), {"display-only", "halt"})
    && Get(graphics, "Device").Some? && DeviceOk(Get(graphics, "Device").value)
  }

  predicate GuestOk(guest: Value, graphics: Value, registry: Registry) {
    && HasExactly(guest, {"ProfileID", "RequireMetal"})
    && IsId(Get(guest, "ProfileID")) && IsBool(Get(guest, "RequireMetal"))
    && var requireMetal := Get(guest, "RequireMetal").value.b;
    && (requireMetal ==>
          OneOf(Get(graphics, "MinimumProfile"), {"vfgp-base1"}) && OneOf(Get(graphics, "OnUnsupported"), {"halt"}))
    && ProfileResolves(Get(guest, "ProfileID").value.s, requireMetal, registry)
  }

  /** (?:25|26)[A-Z][0-9]+[a-z]? */
  predicate IsBuildId(s: string) {
    && |s| >= 4 && (s[..2] == "25" || s[..2] == "26") && 'A' <= s[2] <= 'Z' && '0' <= s[3] <= '9'
    && (forall i | 3 <= i < |s| - 1 :: '0' <= s[i] <= '9')
    && ('0' <= s[|s| - 1] <= '9' || 'a' <= s[|s| - 1] <= 'z')
  }

  function Item(fields: map<string, RegistryField>, key: string): Option<Value> {
    if key in fields && fields[key].Given? then Some(fields[key].value) else None
  }

  predicate FeaturesOk(v: Option<Value>) {
    && v.Some? && v.value.Arr? && 1 <= |v.value.items| <= 128
    && (forall i | 0 <= i < |v.value.items| :: IsId(Some(v.value.items[i])))
    && forall i, j | 0 <= i < j < |v.value.items| :: v.value.items[i] != v.value.items[j]
  }

  predicate AdapterOk(adapter: Value) {
    && HasExactly(adapter, {"ID", "SHA256", "SGPUABI", "MetalValidated"})
    && IsId(Get(adapter, "ID")) && IsHash(Get(adapter, "SHA256")) && IsInt(Get(adapter, "SGPUABI"), 1, 1)
    && IsBool(Get(adapter, "MetalValidated"))
  }

  /** `_resolve_profile` returns instead of raising. */
  predicate ProfileResolves(id: string, requireMetal: bool, registry: Registry) {
    && !registry.NotAMapping?
    && if id == CONFORMANCE_PROFILE then !requireMetal
       else
         && registry.Registered? && id in registry.profiles && registry.profiles[id].Fields?
         && var f := registry.profiles[id].fields;
         && f.Keys == {"Kind", "BuildID", "ImageSHA256", "ABIVersion", "MMUGranule", "TimerFrequencyHz", "BootABI",
                       "InterruptController", "SoCContract", "CPUFeatures", "GraphicsAdapter"}
         && OneOf(Item(f, "Kind"), {"macos"})
         && IsText(Item(f, "BuildID"), 128) && IsBuildId(Item(f, "BuildID").value.s)
         && IsHash(Item(f, "ImageSHA256")) && IsInt(Item(f, "ABIVersion"), 1, 1)
         && (IsInt(Item(f, "MMUGranule"), 4096, 4096) || IsInt(Item(f, "MMUGranule"), 16384, 16384))
         && IsInt(Item(f, "TimerFrequencyHz"), 1, 0xFFFF_FFFF)
         && OneOf(Item(f, "BootABI"), {"iBoot"}) && OneOf(Item(f, "InterruptController"), {"AIC"})
         && IsId(Item(f, "SoCContract")) && FeaturesOk(Item(f, "CPUFeatures"))
         && (f["GraphicsAdapter"].Given? ==> AdapterOk(f["GraphicsAdapter"].value))
         && (requireMetal ==>
               && f["GraphicsAdapter"].Given?
               && Get(f["GraphicsAdapter"].value, "MetalValidated") == Some(Bool(true)))
  }

  // -------------------------------------------------------------------------- storage

  predicate ItemOk(item: Value) {
    && HasExactly(item, {"ID", "Backend", "DeviceSerial", "DiskGUID", "PartitionGUID", "SectorBytes", "ReadOnly"})
    && IsId(Get(item, "ID")) && OneOf(Get(item, "Backend"), {"raw-gpt-partition"})
    && IsText(Get(item, "DeviceSerial"), 255)
    && IsGuid(Get(item, "DiskGUID")) && IsGuid(Get(item, "PartitionGUID"))
    && (IsInt(Get(item, "SectorBytes"), 512, 512) || IsInt(Get(item, "SectorBytes"), 4096, 4096))
    && IsBool(Get(item, "ReadOnly"))
  }

  function Id(item: Value): string requires ItemOk(item) { Get(item, "ID").value.s }
  function Serial(item: Value): string requires ItemOk(item) { Get(item, "DeviceSerial").value.s }
  function Disk(item: Value): string requires ItemOk(item) { Lower(Get(item, "DiskGUID").value.s) }
  function Partition(item: Value): string requires ItemOk(item) { Lower(Get(item, "PartitionGUID").value.s) }

  /** Two bindings can stand in one configuration. */
  predicate Compatible(a: Value, b: Value)
    requires ItemOk(a) && ItemOk(b)
  {
    Id(a) != Id(b) && Partition(a) != Partition(b) && (Disk(a) == Disk(b) ==> Serial(a) == Serial(b))
  }

  predicate StorageOk(items: seq<Value>) {
    && 1 <= |items| <= 32
    && (forall i | 0 <= i < |items| :: ItemOk(items[i]))
    && forall i, j | 0 <= i < j < |items| :: Compatible(items[i], items[j])
  }

  /** {**item, "DiskGUID": disk, "PartitionGUID": partition} */
  function NormalItem(item: Value): Value
    requires ItemOk(item)
  {
    Dict(Replace(Replace(item.entries, "DiskGUID", Str(Disk(item))), "PartitionGUID", Str(Partition(item))))
  }

  function NormalStorage(items: seq<Value>): (r: seq<Value>)
    requires forall i | 0 <= i < |items| :: ItemOk(items[i])
    ensures |r| == |items| && forall i | 0 <= i < |items| :: r[i] == NormalItem(items[i])
  {
    seq(|items|, i requires 0 <= i < |items| => NormalItem(items[i]))
  }

  /** The storage loop: one pass over the bindings with the identifiers, disks and partitions seen so far. */
  method NormalizeStorage(items: seq<Value>) returns (r: Option<seq<Value>>)
    ensures r.Some? <==> StorageOk(items)
    ensures r.Some? ==> r.value == NormalStorage(items)
  {
    hide ItemOk, Id, Serial, Disk, Partition, NormalItem, Compatible, Seen;
    if !(1 <= |items| <= 32) {
      return None;
    }
    var disks: map<string, string> := map[];
    var seenIds: set<string>, seenPartitions: set<string> := {}, {};
    var normalized: seq<Value> := [];
    NothingSeen();
    for index := 0 to |items|
      invariant forall i | 0 <= i < index :: ItemOk(items[i])
      invariant forall i, j | 0 <= i < j < index :: Compatible(items[i], items[j])
      invariant Seen(items[..index], disks, seenIds, seenPartitions)
      invariant normalized == NormalStorage(items[..index])
    {
      var item := items[index];
      if !ItemOk(item) {
        return None;
      }
      var identifier, disk, partition, serial := Id(item), Disk(item), Partition(item), Serial(item);
      NewIsCompatible(items[..index], item, disks, seenIds, seenPartitions);
      if identifier in seenIds || (disk in disks && disks[disk] != serial) || partition in seenPartitions {
        var i :| 0 <= i < index && !Compatible(items[..index][i], item);
        assert !Compatible(items[i], items[index]);
        return None;
      }
      SeenMore(items[..index], items[..index + 1], disks, seenIds, seenPartitions);
      seenIds, seenPartitions := seenIds + {identifier}, seenPartitions + {partition};
      disks := disks[disk := serial];
      assert items[..index + 1] == items[..index] + [item];
      normalized := normalized + [NormalItem(item)];
    }
    assert items[..|items|] == items;
    r := Some(normalized);
  }

  /** The loop's sets and map describe exactly the bindings already passed. */
  ghost predicate Seen(items: seq<Value>, disks: map<string, string>, ids: set<string>, partitions: set<string>)
    requires forall i | 0 <= i < |items| :: ItemOk(items[i])
  {
    && ids == (set i | 0 <= i < |items| :: Id(items[i]))
    && partitions == (set i | 0 <= i < |items| :: Partition(items[i]))
    && disks.Keys == (set i | 0 <= i < |items| :: Disk(items[i]))
    && forall i | 0 <= i < |items| :: disks[Disk(items[i])] == Serial(items[i])
  }

  lemma NothingSeen()
    ensures Seen([], map[], {}, {})
  {
  }

  /** The loop's test for a new binding: it is compatible with all that were passed. */
  lemma NewIsCompatible(items: seq<Value>, item: Value, disks: map<string, string>, ids: set<string>,
                        partitions: set<string>)
    requires (forall i | 0 <= i < |items| :: ItemOk(items[i])) && ItemOk(item)
    requires Seen(items, disks, ids, partitions)
    ensures Id(item) !in ids && (Disk(item) in disks ==> disks[Disk(item)] == Serial(item))
            && Partition(item) !in partitions
            <==> forall i | 0 <= i < |items| :: Compatible(items[i], item)
  {
    hide ItemOk, Id, Serial, Disk, Partition;
    if Disk(item) in disks {
      var k :| 0 <= k < |items| && Disk(items[k]) == Disk(item);
      assert disks[Disk(item)] == Serial(items[k]);
    }
  }

  lemma SeenMore(items: seq<Value>, all: seq<Value>, disks: map<string, string>, ids: set<string>,
                 partitions: set<string>)
    requires |all| == |items| + 1 && items == all[..|items|] && forall i | 0 <= i < |all| :: ItemOk(all[i])
    requires Seen(items, disks, ids, partitions)
    requires var item := all[|items|]; Disk(item) in disks ==> disks[Disk(item)] == Serial(item)
    ensures var item := all[|items|];
            Seen(all, disks[Disk(item) := Serial(item)], ids + {Id(item)}, partitions + {Partition(item)})
  {
    hide ItemOk, Id, Serial, Disk, Partition;
    var item := all[|items|];
    assert forall i | 0 <= i < |items| :: all[i] == items[i];
    assert (set i | 0 <= i < |all| :: Id(all[i])) == ids + {Id(item)};
    assert (set i | 0 <= i < |all| :: Partition(all[i])) == partitions + {Partition(item)};
    assert (set i | 0 <= i < |all| :: Disk(all[i])) == disks.Keys + {Disk(item)};
  }

  // --------------------------------------------------------------- the whole configuration

  /** Everything but the storage bindings. */
  predicate HeadOk(schema: Option<Value>, policy: Option<Value>, cpu: Option<Value>, security: Option<Value>,
                   memory: Option<Value>, graphics: Option<Value>, guest: Option<Value>, registry: Registry)
  {
    && IsInt(schema, 1, 1) && OneOf(policy, {"AppleIntelOnly"})
    && cpu.Some? && CpuOk(cpu.value)
    && security.Some? && SecurityOk(security.value)
    && memory.Some? && MemoryOk(memory.value)
    && graphics.Some? && GraphicsOk(graphics.value)
    && guest.Some? && GuestOk(guest.value, graphics.value, registry)
  }

  const SECTIONS: set<string> :=
    {"SchemaVersion", "PlatformPolicy", "CPU", "Security", "Memory", "Storage", "Graphics", "Guest"}

  predicate ConfigOk(config: Value, registry: Registry) {
    && HasExactly(config, SECTIONS)
    && HeadOk(Get(config, "SchemaVersion"), Get(config, "PlatformPolicy"), Get(config, "CPU"), Get(config, "Security"),
              Get(config, "Memory"), Get(config, "Graphics"), Get(config, "Guest"), registry)
    && Get(config, "Storage").Some? && Get(config, "Storage").value.Arr?
    && StorageOk(Get(config, "Storage").value.items)
  }

  function Normal(config: Value): Value
    requires config.Dict? && Get(config, "Storage").Some? && Get(config, "Storage").value.Arr?
    requires StorageOk(Get(config, "Storage").value.items)
  {
    Dict(Replace(config.entries, "Storage", Arr(NormalStorage(Get(config, "Storage").value.items))))
  }

  /** `normalize_config` */
  function Normalize(config: Value, registry: Registry): (r: Option<Value>) {
    if ConfigOk(config, registry) then Some(Normal(config)) else None
  }

  method NormalizeConfig(config: Value, registry: Registry) returns (r: Option<Value>)
    ensures r == Normalize(config, registry)
  {
    hide HasExactly, HeadOk, StorageOk, NormalStorage;
    if !HasExactly(config, SECTIONS)
       || !HeadOk(Get(config, "SchemaVersion"), Get(config, "PlatformPolicy"), Get(config, "CPU"),
                  Get(config, "Security"), Get(config, "Memory"), Get(config, "Graphics"), Get(config, "Guest"),
                  registry)
    {
      return None;
    }
    var storage := Get(config, "Storage");
    if storage.None? || !storage.value.Arr? {
      return None;
    }
    var normalized := NormalizeStorage(storage.value.items);
    if normalized.None? {
      return None;
    }
    StorageItemsOk(storage.value.items);
    ExactlyIsDict(config, SECTIONS);
    r := Some(Dict(Replace(config.entries, "Storage", Arr(normalized.value))));
  }

  lemma StorageItemsOk(items: seq<Value>)
    requires StorageOk(items)
    ensures forall i | 0 <= i < |items| :: ItemOk(items[i])
  {
  }

  lemma ExactlyIsDict(v: Value, keys: set<string>)
    requires HasExactly(v, keys)
    ensures v.Dict?
  {
  }

  // -------------------------------------------------------------------------- theorems

  lemma LowerGuid(s: string)
    requires IsGuid(Some(Str(s)))
    ensures IsGuid(Some(Str(Lower(s)))) && Lower(Lower(s)) == Lower(s) && IsLower(Lower(s))
  {
    var t := Lower(s);
    assert forall i | 0 <= i < 36 :: t[i] == LowerChar(s[i]);
    assert Lower(t) == t;
    GuidText(t);
    var i :| 0 <= i < 36 && i !in {8, 13, 18, 23} && s[i] != '0';
    assert t[i] != '0';
  }

  predicate GuidShape(s: string) {
    |s| == 36 && forall i | 0 <= i < 36 :: if i in {8, 13, 18, 23} then s[i] == '-' else IsHex(s[i])
  }

  /** A string of the GUID shape passes the general text check. */
  lemma GuidText(s: string)
    requires GuidShape(s)
    ensures IsText(Some(Str(s)), 36)
  {
    assert IsHex(s[0]) && IsHex(s[35]);
    assert TrimLeft(s) == s && TrimRight(s) == s;
    AsciiLength(s);
  }

  lemma {:induction false} AsciiLength(s: string)
    requires forall i | 0 <= i < |s| :: s[i] as int < 0x80
    ensures Utf8Length(s) == |s|
  {
    if s != "" {
      AsciiLength(s[..|s| - 1]);
    }
  }

  lemma ItemKeysDiffer()
    ensures "DiskGUID" != "PartitionGUID"
    ensures "DiskGUID" !in {"ID", "Backend", "DeviceSerial", "SectorBytes", "ReadOnly"}
    ensures "PartitionGUID" !in {"ID", "Backend", "DeviceSerial", "SectorBytes", "ReadOnly"}
  {
    assert |"DiskGUID"| == 8 && |"PartitionGUID"| == 13 && |"ReadOnly"| == 8 && "ReadOnly"[0] != "DiskGUID"[0];
    assert |"ID"| == 2 && |"Backend"| == 7 && |"DeviceSerial"| == 12 && |"SectorBytes"| == 11;
  }

  lemma NormalItemLookups(item: Value, key: string)
    requires ItemOk(item)
    ensures HasExactly(NormalItem(item), {"ID", "Backend", "DeviceSerial", "DiskGUID", "PartitionGUID", "SectorBytes",
                                          "ReadOnly"})
    ensures key == "DiskGUID" ==> Get(NormalItem(item), key) == Some(Str(Disk(item)))
    ensures key == "PartitionGUID" ==> Get(NormalItem(item), key) == Some(Str(Partition(item)))
    ensures key in {"ID", "Backend", "DeviceSerial", "SectorBytes", "ReadOnly"} ==>
              Get(NormalItem(item), key) == Get(item, key)
  {
    hide IsGuid, IsId, IsText, Lookup, Replace, KeySet, Lower;
    ItemKeysDiffer();
    var first := Replace(item.entries, "DiskGUID", Str(Disk(item)));
    LookupReplace(item.entries, "DiskGUID", Str(Disk(item)), key);
    LookupReplace(item.entries, "DiskGUID", Str(Disk(item)), "PartitionGUID");
    LookupReplace(first, "PartitionGUID", Str(Partition(item)), key);
    GuidsPresent(item);
  }

  lemma GuidsPresent(item: Value)
    requires ItemOk(item)
    ensures Lookup(item.entries, "DiskGUID").Some? && IsGuid(Get(item, "DiskGUID"))
    ensures Lookup(item.entries, "PartitionGUID").Some? && IsGuid(Get(item, "PartitionGUID"))
  {
  }

  /** A normalized binding is acceptable, names the same things and is its own normal form. */
  lemma NormalItemOk(item: Value)
    requires ItemOk(item)
    ensures ItemOk(NormalItem(item)) && NormalItem(NormalItem(item)) == NormalItem(item)
    ensures var n := NormalItem(item);
            && Id(n) == Id(item) && Serial(n) == Serial(item)
            && Disk(n) == Disk(item) && Partition(n) == Partition(item)
            && Get(n, "DiskGUID") == Some(Str(Disk(item))) && Get(n, "PartitionGUID") == Some(Str(Partition(item)))
            && IsLower(Disk(item)) && IsLower(Partition(item))
  {
    hide IsGuid, IsId, IsText, Lookup, Replace, HasExactly;
    var n := NormalItem(item);
    NormalItemLookups(item, "ID");
    NormalItemLookups(item, "Backend");
    NormalItemLookups(item, "DeviceSerial");
    NormalItemLookups(item, "SectorBytes");
    NormalItemLookups(item, "ReadOnly");
    NormalItemLookups(item, "DiskGUID");
    NormalItemLookups(item, "PartitionGUID");
    GuidsPresent(item);
    GuidString(Get(item, "DiskGUID"));
    GuidString(Get(item, "PartitionGUID"));
    LowerGuid(Get(item, "DiskGUID").value.s);
    LowerGuid(Get(item, "PartitionGUID").value.s);
    ReplaceTwice(n.entries, "DiskGUID", Str(Disk(n)));
    ReplaceTwice(n.entries, "PartitionGUID", Str(Partition(n)));
  }

  lemma GuidString(v: Option<Value>)
    requires IsGuid(v)
    ensures v.Some? && v.value.Str? && v == Some(Str(v.value.s))
  {
  }

  lemma NormalStorageOk(items: seq<Value>)
    requires StorageOk(items)
    ensures StorageOk(NormalStorage(items)) && NormalStorage(NormalStorage(items)) == NormalStorage(items)
  {
    hide ItemOk, NormalItem, Id, Serial, Disk, Partition;
    var n := NormalStorage(items);
    forall i | 0 <= i < |items|
      ensures ItemOk(n[i]) && NormalItem(n[i]) == n[i]
      ensures Id(n[i]) == Id(items[i]) && Serial(n[i]) == Serial(items[i])
      ensures Disk(n[i]) == Disk(items[i]) && Partition(n[i]) == Partition(items[i])
    {
      NormalItemOk(items[i]);
    }
    forall i, j | 0 <= i < j < |items| ensures Compatible(n[i], n[j]) {
      assert Compatible(items[i], items[j]);
    }
    assert NormalStorage(n) == n;
  }

  lemma StorageKeyDiffers()
    ensures "Storage" !in {"SchemaVersion", "PlatformPolicy", "CPU", "Security", "Memory", "Graphics", "Guest"}
  {
    assert |"Storage"| == 7 && |"SchemaVersion"| == 13 && |"PlatformPolicy"| == 14 && |"CPU"| == 3;
    assert |"Security"| == 8 && |"Memory"| == 6 && |"Graphics"| == 8 && |"Guest"| == 5;
  }

  lemma NormalLookups(config: Value, registry: Registry, key: string)
    requires ConfigOk(config, registry)
    ensures var n := Normal(config);
            && (forall keys :: HasExactly(config, keys) ==> HasExactly(n, keys))
            && (key in {"SchemaVersion", "PlatformPolicy", "CPU", "Security", "Memory", "Graphics", "Guest"} ==>
                  Get(n, key) == Get(config, key))
            && Get(n, "Storage") == Some(Arr(NormalStorage(Get(config, "Storage").value.items)))
  {
    hide HeadOk, StorageOk, Lookup, Replace, KeySet;
    StorageKeyDiffers();
    var items := Get(config, "Storage").value.items;
    StorageItemsOk(items);
    LookupReplace(config.entries, "Storage", Arr(NormalStorage(items)), key);
    LookupReplace(config.entries, "Storage", Arr(NormalStorage(items)), "Storage");
  }

  /** Normalizing a normalized configuration accepts it and changes nothing. */
  lemma NormalizeIdempotent(config: Value, registry: Registry)
    requires Normalize(config, registry).Some?
    ensures var n := Normalize(config, registry).value;
            Normalize(n, registry) == Some(n)
  {
    hide HeadOk, HasExactly, StorageOk, NormalStorage, Get, Replace;
    var n := Normalize(config, registry).value;
    NormalLookups(config, registry, "SchemaVersion");
    NormalLookups(config, registry, "PlatformPolicy");
    NormalLookups(config, registry, "CPU");
    NormalLookups(config, registry, "Security");
    NormalLookups(config, registry, "Memory");
    NormalLookups(config, registry, "Graphics");
    NormalLookups(config, registry, "Guest");
    var items := Get(config, "Storage").value.items;
    NormalStorageOk(items);
    StorageItemsOk(items);
    StorageInPlace(n, Arr(NormalStorage(items)));
  }

  lemma StorageInPlace(n: Value, storage: Value)
    requires n.Dict? && Get(n, "Storage") == Some(storage)
    ensures Replace(n.entries, "Storage", storage) == n.entries
  {
    ReplaceTwice(n.entries, "Storage", storage);
  }

  /** Every binding of a normalized configuration has both GUIDs in lower case, and its serial unchanged. */
  lemma NormalizedBinding(config: Value, registry: Registry, i: nat)
    requires Normalize(config, registry).Some?
    requires i < |Get(config, "Storage").value.items|
    ensures var n := Normalize(config, registry).value;
            && Get(n, "Storage").Some? && Get(n, "Storage").value.Arr?
            && var bindings := Get(n, "Storage").value.items;
            && |bindings| == |Get(config, "Storage").value.items|
            && var disk, partition := Get(bindings[i], "DiskGUID"), Get(bindings[i], "PartitionGUID");
            && disk.Some? && disk.value.Str? && IsLower(disk.value.s)
            && partition.Some? && partition.value.Str? && IsLower(partition.value.s)
            && Get(bindings[i], "DeviceSerial") == Get(Get(config, "Storage").value.items[i], "DeviceSerial")
  {
    hide HeadOk, ItemOk, NormalItem, Lower, Lookup;
    NormalLookups(config, registry, "CPU");
    var items := Get(config, "Storage").value.items;
    NormalItemOk(items[i]);
    NormalItemLookups(items[i], "DeviceSerial");
  }

  /**
   In every normalized configuration the partition GUIDs are lower case and pairwise distinct,
   and each disk GUID is lower case and bound to one serial.
   */
  lemma NormalizedFacts(config: Value, registry: Registry, i: nat, j: nat)
    requires Normalize(config, registry).Some?
    requires i < j < |Get(config, "Storage").value.items|
    ensures var n := Normalize(config, registry).value;
            && Get(n, "Storage").Some? && Get(n, "Storage").value.Arr?
            && var bindings := Get(n, "Storage").value.items;
            && |bindings| == |Get(config, "Storage").value.items|
            && Get(bindings[i], "PartitionGUID").Some? && Get(bindings[j], "PartitionGUID").Some?
            && Get(bindings[i], "PartitionGUID") != Get(bindings[j], "PartitionGUID")
            && (Get(bindings[i], "DiskGUID") == Get(bindings[j], "DiskGUID") ==>
                  Get(bindings[i], "DeviceSerial") == Get(bindings[j], "DeviceSerial"))
            && Get(bindings[i], "PartitionGUID").value.Str? && IsLower(Get(bindings[i], "PartitionGUID").value.s)
            && Get(bindings[j], "DiskGUID").Some? && Get(bindings[j], "DiskGUID").value.Str?
            && IsLower(Get(bindings[j], "DiskGUID").value.s)
  {
    hide HeadOk, ItemOk, NormalItem, Lower, Lookup;
    NormalLookups(config, registry, "CPU");
    var items := Get(config, "Storage").value.items;
    NormalItemOk(items[i]);
    NormalItemOk(items[j]);
    assert Compatible(items[i], items[j]);
    SerialString(NormalItem(items[i]));
    SerialString(NormalItem(items[j]));
  }

  /** The guest profile of a configuration, as the bundle looks at it: a registered one by the major of its build. */
  datatype Profile = Conformance | Build(major: nat)

  /** int(build[:2]) */
  function BuildMajor(build: string): nat
    requires IsBuildId(build)
  {
    10 * (build[0] as int - '0' as int) + (build[1] as int - '0' as int)
  }

  /** What the guest section names: the conformance profile, or a registered one with a build. */
  lemma GuestNames(config: Value, registry: Registry)
    requires ConfigOk(config, registry)
    ensures var guest := Get(config, "Guest");
            && guest.Some? && Get(guest.value, "ProfileID").Some? && Get(guest.value, "ProfileID").value.Str?
            && var id := Get(guest.value, "ProfileID").value.s;
            id != CONFORMANCE_PROFILE ==>
              && registry.Registered? && id in registry.profiles && registry.profiles[id].Fields?
              && var build := Item(registry.profiles[id].fields, "BuildID");
              && build.Some? && build.value.Str? && IsBuildId(build.value.s)
  {
    hide StorageOk, CpuOk, SecurityOk, MemoryOk, GraphicsOk, Lookup, HasExactly;
    hide IsBuildId, IsHash, FeaturesOk, AdapterOk;
  }

  /** The profile a configuration selects once it has been normalized; None where that raises. */
  function SelectedProfile(config: Value, registry: Registry): Option<Profile> {
    match Normalize(config, registry)
    case None => None
    case Some(n) =>
      NormalLookups(config, registry, "Guest");
      GuestNames(config, registry);
      var id := Get(Get(n, "Guest").value, "ProfileID").value.s;
      if id == CONFORMANCE_PROFILE then Some(Conformance)
      else Some(Build(BuildMajor(Item(registry.profiles[id].fields, "BuildID").value.s)))
  }

  /** The normaliser only lets builds of two majors pass. */
  lemma SelectedMajor(config: Value, registry: Registry)
    requires SelectedProfile(config, registry).Some?
    ensures var p := SelectedProfile(config, registry).value;
            p == Conformance || p.major in {25, 26}
  {
    hide ConfigOk, Normal, Get, IsBuildId;
    NormalLookups(config, registry, "Guest");
    GuestNames(config, registry);
    var id := Get(Get(config, "Guest").value, "ProfileID").value.s;
    if id != CONFORMANCE_PROFILE {
      TwoMajors(Item(registry.profiles[id].fields, "BuildID").value.s);
    }
  }

  lemma TwoMajors(build: string)
    requires IsBuildId(build)
    ensures BuildMajor(build) in {25, 26}
  {
    assert build[..2][0] == build[0] && build[..2][1] == build[1];
  }

  lemma SerialString(item: Value)
    requires ItemOk(item)
    ensures Get(item, "DeviceSerial") == Some(Str(Serial(item)))
  {
  }

  /** Guest memory and the host reserve together stay below 2^64 bytes. */
  lemma MemoryBelow2To64(config: Value, registry: Registry)
    requires Normalize(config, registry).Some?
    ensures var memory := Get(Normalize(config, registry).value, "Memory");
            && memory.Some? && memory == Get(config, "Memory")
            && var guest, host := Get(memory.value, "GuestMiB"), Get(memory.value, "HostReserveMiB");
            && IsInt(guest, 1, MAX_MIB) && IsInt(host, 1, MAX_MIB)
            && (guest.value.n + host.value.n) * (1024 * 1024) < 0x1_0000_0000_0000_0000
            && IsInt(Get(memory.value, "JITCacheMiB"), 1, host.value.n)
  {
    hide HeadOk, StorageOk, Get, HasExactly, IsInt;
    NormalLookups(config, registry, "Memory");
    HeadMemory(Get(config, "SchemaVersion"), Get(config, "PlatformPolicy"), Get(config, "CPU"), Get(config, "Security"),
               Get(config, "Memory"), Get(config, "Graphics"), Get(config, "Guest"), registry);
  }

  /** Every accepted configuration demands the four protections and rules out the DMA bypass. */
  lemma SecurityFixed(config: Value, registry: Registry)
    requires Normalize(config, registry).Some?
    ensures var security := Get(Normalize(config, registry).value, "Security");
            && security.Some? && Get(security.value, "DMABypass") == Some(Bool(false))
            && forall key | key in {"VMXRequired", "EPTRequired", "IOMMURequired", "InterruptRemappingRequired"} ::
                 Get(security.value, key) == Some(Bool(true))
  {
    hide HeadOk, StorageOk, Get, HasExactly, Normal;
    NormalLookups(config, registry, "Security");
    HeadSecurity(Get(config, "SchemaVersion"), Get(config, "PlatformPolicy"), Get(config, "CPU"),
                 Get(config, "Security"), Get(config, "Memory"), Get(config, "Graphics"), Get(config, "Guest"),
                 registry);
    forall key | key in {"DMABypass", "VMXRequired", "EPTRequired", "IOMMURequired", "InterruptRemappingRequired"}
      ensures Get(Get(config, "Security").value, key) == Some(Bool(key != "DMABypass"))
    {
      SecurityValue(Get(config, "Security").value, key);
    }
    NotTheBypass();
  }

  lemma NotTheBypass()
    ensures "DMABypass" !in {"VMXRequired", "EPTRequired", "IOMMURequired", "InterruptRemappingRequired"}
  {
    assert |"DMABypass"| == 9 && |"VMXRequired"| == 11 && |"EPTRequired"| == 11 && |"IOMMURequired"| == 13;
    assert |"InterruptRemappingRequired"| == 26;
  }

  lemma HeadSecurity(schema: Option<Value>, policy: Option<Value>, cpu: Option<Value>, security: Option<Value>,
                     memory: Option<Value>, graphics: Option<Value>, guest: Option<Value>, registry: Registry)
    requires HeadOk(schema, policy, cpu, security, memory, graphics, guest, registry)
    ensures security.Some? && SecurityOk(security.value)
  {
    hide CpuOk, SecurityOk, MemoryOk, GraphicsOk, GuestOk;
  }

  lemma SecurityValue(security: Value, key: string)
    requires SecurityOk(security)
    requires key in {"DMABypass", "VMXRequired", "EPTRequired", "IOMMURequired", "InterruptRemappingRequired"}
    ensures Get(security, key) == Some(Bool(key != "DMABypass"))
  {
    LookupPresent(security.entries, key);
    LookupFlag(security.entries, key);
  }

  lemma {:induction false} LookupFlag(entries: seq<Pair>, key: string)
    requires forall i | 0 <= i < |entries| :: entries[i].value == Bool(entries[i].key != "DMABypass")
    ensures Lookup(entries, key) in {None, Some(Bool(key != "DMABypass"))}
  {
    if entries != [] {
      assert forall i | 0 <= i < |entries| - 1 :: entries[1..][i] == entries[i + 1];
      LookupFlag(entries[1..], key);
    }
  }

  /** A configuration that asks for Metal is accepted only with a validated adapter and no way around it. */
  lemma MetalIsValidated(config: Value, registry: Registry)
    requires Normalize(config, registry).Some?
    requires Get(config, "Guest").Some? && Get(Get(config, "Guest").value, "RequireMetal") == Some(Bool(true))
    ensures var n := Normalize(config, registry).value;
            && Get(n, "Guest") == Get(config, "Guest") && Get(n, "Graphics").Some?
            && Get(Get(n, "Graphics").value, "MinimumProfile") == Some(Str("vfgp-base1"))
            && Get(Get(n, "Graphics").value, "OnUnsupported") == Some(Str("halt"))
            && var id := Get(Get(n, "Guest").value, "ProfileID");
            && id.Some? && id.value.Str? && registry.Registered? && id.value.s in registry.profiles
            && var profile := registry.profiles[id.value.s];
            && profile.Fields? && "GraphicsAdapter" in profile.fields && profile.fields["GraphicsAdapter"].Given?
            && Get(profile.fields["GraphicsAdapter"].value, "MetalValidated") == Some(Bool(true))
  {
    hide HeadOk, StorageOk, Get, HasExactly, Normal;
    NormalLookups(config, registry, "Guest");
    NormalLookups(config, registry, "Graphics");
    HeadMetal(Get(config, "SchemaVersion"), Get(config, "PlatformPolicy"), Get(config, "CPU"), Get(config, "Security"),
              Get(config, "Memory"), Get(config, "Graphics"), Get(config, "Guest"), registry);
  }

  lemma HeadMetal(schema: Option<Value>, policy: Option<Value>, cpu: Option<Value>, security: Option<Value>,
                  memory: Option<Value>, graphics: Option<Value>, guest: Option<Value>, registry: Registry)
    requires HeadOk(schema, policy, cpu, security, memory, graphics, guest, registry)
    requires guest.Some? && Get(guest.value, "RequireMetal") == Some(Bool(true))
    ensures graphics.Some? && Get(graphics.value, "MinimumProfile") == Some(Str("vfgp-base1"))
            && Get(graphics.value, "OnUnsupported") == Some(Str("halt"))
    ensures var id := Get(guest.value, "ProfileID");
            && id.Some? && id.value.Str? && registry.Registered? && id.value.s in registry.profiles
            && var profile := registry.profiles[id.value.s];
            && profile.Fields? && "GraphicsAdapter" in profile.fields && profile.fields["GraphicsAdapter"].Given?
            && Get(profile.fields["GraphicsAdapter"].value, "MetalValidated") == Some(Bool(true))
  {
    hide CpuOk, SecurityOk, MemoryOk, GraphicsOk, Lookup, KeySet, Get, IsHash, IsBuildId, FeaturesOk, AdapterOk;
  }

  lemma HeadMemory(schema: Option<Value>, policy: Option<Value>, cpu: Option<Value>, security: Option<Value>,
                   memory: Option<Value>, graphics: Option<Value>, guest: Option<Value>, registry: Registry)
    requires HeadOk(schema, policy, cpu, security, memory, graphics, guest, registry)
    ensures memory.Some?
    ensures var total, host := Get(memory.value, "GuestMiB"), Get(memory.value, "HostReserveMiB");
            && IsInt(total, 1, MAX_MIB) && IsInt(host, 1, MAX_MIB) && total.value.n + host.value.n <= MAX_MIB
            && IsInt(Get(memory.value, "JITCacheMiB"), 1, host.value.n)
  {
    hide CpuOk, SecurityOk, GraphicsOk, GuestOk, Lookup, KeySet;
  }

  // What an accepted configuration says, field by field.

  predicate Between(v: Option<Value>, low: nat, high: nat) { exists n: nat :: low <= n <= high && v == Some(Int(n)) }

  lemma BetweenMeans(v: Option<Value>, low: nat, high: nat)
    ensures IsInt(v, low, high) <==> Between(v, low, high)
  {
    if IsInt(v, low, high) {
      assert v == Some(Int(v.value.n));
    }
  }

  lemma OneMeans(v: Option<Value>, choice: string)
    ensures OneOf(v, {choice}) <==> v == Some(Str(choice))
  {
  }

  lemma TwoMean(v: Option<Value>, first: string, second: string)
    ensures OneOf(v, {first, second}) <==> v in {Some(Str(first)), Some(Str(second))}
  {
  }

  /** The processor section: four fixed choices and two bounded numbers, one of them or "auto". */
  ghost predicate CpuSays(cpu: Value) {
    && HasExactly(cpu, {"MinimumISA", "Codegen", "HybridScheduling", "VCPUs", "ServiceLogicalCPUs", "SMTPolicy"})
    && Get(cpu, "MinimumISA") == Some(Str("sse4.2")) && Get(cpu, "Codegen") == Some(Str("auto"))
    && Get(cpu, "HybridScheduling") == Some(Str("capacity-aware"))
    && Get(cpu, "SMTPolicy") == Some(Str("isolate-cells"))
    && Between(Get(cpu, "ServiceLogicalCPUs"), 1, 4096)
    && (Get(cpu, "VCPUs") == Some(Str("auto")) || Between(Get(cpu, "VCPUs"), 1, 4096))
  }

  lemma CpuMeans(cpu: Value)
    ensures CpuOk(cpu) <==> CpuSays(cpu)
  {
    hide OneOf, IsInt, Between, HasExactly, Get;
    OneMeans(Get(cpu, "MinimumISA"), "sse4.2");
    OneMeans(Get(cpu, "Codegen"), "auto");
    OneMeans(Get(cpu, "HybridScheduling"), "capacity-aware");
    OneMeans(Get(cpu, "SMTPolicy"), "isolate-cells");
    OneMeans(Get(cpu, "VCPUs"), "auto");
    BetweenMeans(Get(cpu, "VCPUs"), 1, 4096);
    BetweenMeans(Get(cpu, "ServiceLogicalCPUs"), 1, 4096);
  }

  /** The graphics section: a fixed policy, two choices, and a device that is chosen or named by its address. */
  ghost predicate GraphicsSays(graphics: Value) {
    && HasExactly(graphics, {"Device", "DriverPolicy", "MinimumProfile", "OnUnsupported"})
    && Get(graphics, "DriverPolicy") == Some(Str("allowlist"))
    && Get(graphics, "MinimumProfile") in {Some(Str("display-only")), Some(Str("vfgp-base1"))}
    && Get(graphics, "OnUnsupported") in {Some(Str("display-only")), Some(Str("halt"))}
    && Get(graphics, "Device").Some? && DeviceSays(Get(graphics, "Device").value)
  }

  ghost predicate DeviceSays(device: Value) {
    || device == Str("auto")
    || (&& HasExactly(device, {"Segment", "Bus", "Device", "Function", "VendorID", "DeviceID", "SubsystemVendorID",
                               "SubsystemDeviceID", "RevisionID"})
        && (forall key | key in {"Segment", "DeviceID", "SubsystemVendorID", "SubsystemDeviceID"} ::
              Between(Get(device, key), 0, 0xFFFF))
        && Between(Get(device, "VendorID"), 1, 0xFFFE) && Between(Get(device, "Bus"), 0, 0xFF)
        && Between(Get(device, "RevisionID"), 0, 0xFF)
        && Between(Get(device, "Device"), 0, 0x1F) && Between(Get(device, "Function"), 0, 7))
  }

  lemma DeviceMeans(device: Value)
    ensures DeviceOk(device) <==> DeviceSays(device)
  {
    hide IsInt, Between, HasExactly, Get;
    forall key, low, high ensures IsInt(Get(device, key), low, high) <==> Between(Get(device, key), low, high) {
      BetweenMeans(Get(device, key), low, high);
    }
  }

  lemma GraphicsMeans(graphics: Value)
    ensures GraphicsOk(graphics) <==> GraphicsSays(graphics)
  {
    hide OneOf, DeviceOk, DeviceSays, HasExactly, Get;
    OneMeans(Get(graphics, "DriverPolicy"), "allowlist");
    TwoMean(Get(graphics, "MinimumProfile"), "display-only", "vfgp-base1");
    TwoMean(Get(graphics, "OnUnsupported"), "display-only", "halt");
    if Get(graphics, "Device").Some? {
      DeviceMeans(Get(graphics, "Device").value);
    }
  }

  /** Of every accepted configuration: its version and policy, and its processor and graphics sections. */
  lemma AcceptedSections(config: Value, registry: Registry)
    requires Normalize(config, registry).Some?
    ensures HasExactly(config, {"SchemaVersion", "PlatformPolicy", "CPU", "Security", "Memory", "Storage", "Graphics",
                                "Guest"})
    ensures Get(config, "SchemaVersion") == Some(Int(1)) && Get(config, "PlatformPolicy") == Some(Str("AppleIntelOnly"))
    ensures Get(config, "CPU").Some? && CpuSays(Get(config, "CPU").value)
    ensures Get(config, "Graphics").Some? && GraphicsSays(Get(config, "Graphics").value)
  {
    hide CpuOk, CpuSays, SecurityOk, MemoryOk, GraphicsOk, GraphicsSays, GuestOk, StorageOk, Get, HasExactly, OneOf;
    hide IsInt, Between, Normal;
    OneMeans(Get(config, "PlatformPolicy"), "AppleIntelOnly");
    BetweenMeans(Get(config, "SchemaVersion"), 1, 1);
    OnlyOne(Get(config, "SchemaVersion"));
    CpuMeans(Get(config, "CPU").value);
    GraphicsMeans(Get(config, "Graphics").value);
  }

  lemma OnlyOne(v: Option<Value>)
    ensures Between(v, 1, 1) <==> v == Some(Int(1))
  {
  }

  predicate DigitCode(n: int) { 48 <= n <= 57 }
  predicate LetterCode(n: int) { 65 <= n <= 90 || 97 <= n <= 122 }
  predicate HexCode(n: int) { 48 <= n <= 57 || 65 <= n <= 70 || 97 <= n <= 102 }

  /** An identifier: one to 128 letters, digits and four signs, a letter or a digit first. */
  predicate Identifier(s: string) {
    && 1 <= |s| <= 128 && (DigitCode(s[0] as int) || LetterCode(s[0] as int))
    && forall i | 0 <= i < |s| :: DigitCode(s[i] as int) || LetterCode(s[i] as int) || s[i] as int in {45, 46, 58, 95}
  }

  lemma IdMeans(v: Option<Value>)
    ensures IsId(v) <==> v.Some? && v.value.Str? && Identifier(v.value.s)
  {
    if v.Some? && v.value.Str? {
      var s := v.value.s;
      if s != "" && forall i | 0 <= i < |s| :: IsAlnum(s[i]) || s[i] in {'.', '_', ':', '-'} {
        PlainText(s);
      }
    }
  }

  /** Text without blanks that is plain ASCII passes the general check. */
  lemma PlainText(s: string)
    requires s != "" && forall i | 0 <= i < |s| :: ' ' < s[i] < '\U{7f}'
    ensures s == Strip(s) && Utf8Length(s) == |s|
    ensures forall i | 0 <= i < |s| :: s[i] >= ' ' && s[i] != '\U{7f}'
  {
    assert !IsSpace(s[0]) && !IsSpace(s[|s| - 1]);
    assert TrimLeft(s) == s && TrimRight(s) == s;
    AsciiLength(s);
  }

  /** A GUID: 36 characters, dashes at four places, hexadecimal digits at the others, not all of them zero. */
  predicate Guid(s: string) {
    && |s| == 36
    && (forall i | 0 <= i < 36 ::
          if i == 8 || i == 13 || i == 18 || i == 23 then s[i] as int == 45 else HexCode(s[i] as int))
    && exists i :: 0 <= i < 36 && s[i] != '-' && s[i] != '0'
  }

  lemma GuidMeans(v: Option<Value>)
    ensures IsGuid(v) <==> v.Some? && v.value.Str? && Guid(v.value.s)
  {
    if v.Some? && v.value.Str? && |v.value.s| == 36 {
      var s := v.value.s;
      if GuidShape(s) {
        GuidText(s);
      }
      hide IsText;
      if i :| 0 <= i < 36 && s[i] != '-' && s[i] != '0' {
        assert GuidShape(s) ==> i !in {8, 13, 18, 23};
      }
    }
  }

  lemma EitherMeans(v: Option<Value>, a: nat, b: nat)
    ensures IsInt(v, a, a) || IsInt(v, b, b) <==> v in {Some(Int(a)), Some(Int(b))}
  {
  }

  /** A storage binding, by its fields. */
  ghost predicate ItemSays(item: Value) {
    && HasExactly(item, {"ID", "Backend", "DeviceSerial", "DiskGUID", "PartitionGUID", "SectorBytes", "ReadOnly"})
    && (var id := Get(item, "ID"); id.Some? && id.value.Str? && Identifier(id.value.s))
    && Get(item, "Backend") == Some(Str("raw-gpt-partition")) && IsText(Get(item, "DeviceSerial"), 255)
    && (forall key | key in {"DiskGUID", "PartitionGUID"} ::
          Get(item, key).Some? && Get(item, key).value.Str? && Guid(Get(item, key).value.s))
    && Get(item, "SectorBytes") in {Some(Int(512)), Some(Int(4096))}
    && Get(item, "ReadOnly") in {Some(Bool(false)), Some(Bool(true))}
  }

  lemma ItemMeans(item: Value)
    ensures ItemOk(item) <==> ItemSays(item)
  {
    hide OneOf, IsInt, IsId, IsGuid, IsText, Identifier, Guid, HasExactly, Get;
    IdMeans(Get(item, "ID"));
    OneMeans(Get(item, "Backend"), "raw-gpt-partition");
    GuidMeans(Get(item, "DiskGUID"));
    GuidMeans(Get(item, "PartitionGUID"));
    EitherMeans(Get(item, "SectorBytes"), 512, 4096);
  }

  /** A registered guest profile, by its fields. */
  ghost predicate ProfileSays(f: map<string, RegistryField>, requireMetal: bool) {
    && f.Keys == {"Kind", "BuildID", "ImageSHA256", "ABIVersion", "MMUGranule", "TimerFrequencyHz", "BootABI",
                  "InterruptController", "SoCContract", "CPUFeatures", "GraphicsAdapter"}
    && Item(f, "Kind") == Some(Str("macos")) && Item(f, "BootABI") == Some(Str("iBoot"))
    && Item(f, "InterruptController") == Some(Str("AIC")) && Item(f, "ABIVersion") == Some(Int(1))
    && Item(f, "MMUGranule") in {Some(Int(4096)), Some(Int(16384))}
    && Between(Item(f, "TimerFrequencyHz"), 1, 0xFFFF_FFFF)
    && IsText(Item(f, "BuildID"), 128) && IsBuildId(Item(f, "BuildID").value.s) && IsHash(Item(f, "ImageSHA256"))
    && (var soc := Item(f, "SoCContract"); soc.Some? && soc.value.Str? && Identifier(soc.value.s))
    && FeaturesOk(Item(f, "CPUFeatures"))
    && (f["GraphicsAdapter"].Given? ==> AdapterOk(f["GraphicsAdapter"].value))
    && (requireMetal ==>
          && f["GraphicsAdapter"].Given? && Get(f["GraphicsAdapter"].value, "MetalValidated") == Some(Bool(true)))
  }

  /** Which profile resolves: the conformance one without Metal, or a registered one that says all this. */
  lemma ProfileMeans(id: string, requireMetal: bool, registry: Registry)
    ensures ProfileResolves(id, requireMetal, registry) <==>
              && registry != NotAMapping
              && if id == "arm64-conformance-v1" then !requireMetal
                 else
                   && registry.Registered? && id in registry.profiles && registry.profiles[id].Fields?
                   && ProfileSays(registry.profiles[id].fields, requireMetal)
  {
    hide OneOf, IsInt, Between, IsId, Identifier, IsText, IsHash, IsBuildId, FeaturesOk, AdapterOk, Item, Get;
    if registry.Registered? && id in registry.profiles && registry.profiles[id].Fields? {
      var f := registry.profiles[id].fields;
      OneMeans(Item(f, "Kind"), "macos");
      OneMeans(Item(f, "BootABI"), "iBoot");
      OneMeans(Item(f, "InterruptController"), "AIC");
      BetweenMeans(Item(f, "ABIVersion"), 1, 1);
      OnlyOne(Item(f, "ABIVersion"));
      EitherMeans(Item(f, "MMUGranule"), 4096, 16384);
      BetweenMeans(Item(f, "TimerFrequencyHz"), 1, 0xFFFF_FFFF);
      IdMeans(Item(f, "SoCContract"));
    }
  }
}
