/** A configuration the normaliser accepts: one binding and a registered macOS 26 profile. */
module ConfigExample {
  import opened Bytes
  import opened Plist
  import opened Config

  const GUID: string := seq(36, i => if i in {8, 13, 18, 23} then '-' else '1')
  const HASH: string := seq(64, i => '0')

  const CPU := Dict([
    Pair("MinimumISA", Str("sse4.2")), Pair("Codegen", Str("auto")), Pair("HybridScheduling", Str("capacity-aware")),
    Pair("VCPUs", Str("auto")), Pair("ServiceLogicalCPUs", Int(1)), Pair("SMTPolicy", Str("isolate-cells"))])
  const SECURITY := Dict([
    Pair("VMXRequired", Bool(true)), Pair("EPTRequired", Bool(true)), Pair("IOMMURequired", Bool(true)),
    Pair("InterruptRemappingRequired", Bool(true)), Pair("DMABypass", Bool(false))])
  const MEMORY := Dict([Pair("GuestMiB", Int(2)), Pair("HostReserveMiB", Int(1)), Pair("JITCacheMiB", Int(1))])
  const BINDING := Dict([
    Pair("ID", Str("d")), Pair("Backend", Str("raw-gpt-partition")), Pair("DeviceSerial", Str("s")),
    Pair("DiskGUID", Str(GUID)), Pair("PartitionGUID", Str(GUID)), Pair("SectorBytes", Int(512)),
    Pair("ReadOnly", Bool(false))])
  const GRAPHICS := Dict([
    Pair("Device", Str("auto")), Pair("DriverPolicy", Str("allowlist")), Pair("MinimumProfile", Str("display-only")),
    Pair("OnUnsupported", Str("display-only"))])
  const GUEST := Dict([Pair("ProfileID", Str("p")), Pair("RequireMetal", Bool(false))])
  const EXAMPLE := Dict([
    Pair("SchemaVersion", Int(1)), Pair("PlatformPolicy", Str("AppleIntelOnly")), Pair("CPU", CPU),
    Pair("Security", SECURITY), Pair("Memory", MEMORY), Pair("Storage", Arr([BINDING])), Pair("Graphics", GRAPHICS),
    Pair("Guest", GUEST)])

  const PROFILE: map<string, RegistryField> := map[
    "Kind" := Given(Str("macos")), "BuildID" := Given(Str("25A1")), "ImageSHA256" := Given(Str(HASH)),
    "ABIVersion" := Given(Int(1)), "MMUGranule" := Given(Int(4096)), "TimerFrequencyHz" := Given(Int(1)),
    "BootABI" := Given(Str("iBoot")), "InterruptController" := Given(Str("AIC")), "SoCContract" := Given(Str("c")),
    "CPUFeatures" := Given(Arr([Str("f")])), "GraphicsAdapter" := Absent]
  const REGISTRY := Registered(map["p" := Fields(PROFILE)])

  /** The value under a key is that of its first entry. */
  lemma {:induction false} FirstEntry(entries: seq<Pair>, i: nat)
    requires i < |entries| && forall j | 0 <= j < i :: entries[j].key != entries[i].key
    ensures Lookup(entries, entries[i].key) == Some(entries[i].value)
    decreases |entries|
  {
    if i > 0 {
      assert forall j | 0 <= j < i :: entries[1..][j] == entries[j + 1];
      FirstEntry(entries[1..], i - 1);
    }
  }

  predicate Distinct(entries: seq<Pair>) { forall i, j | 0 <= i < j < |entries| :: entries[i].key != entries[j].key }

  lemma EachEntry(v: Value)
    requires v.Dict? && Distinct(v.entries)
    ensures forall i | 0 <= i < |v.entries| :: Get(v, v.entries[i].key) == Some(v.entries[i].value)
  {
    forall i | 0 <= i < |v.entries| ensures Get(v, v.entries[i].key) == Some(v.entries[i].value) {
      FirstEntry(v.entries, i);
    }
  }

  lemma ShortId(s: string)
    requires |s| == 1 && IsAlnum(s[0])
    ensures IsId(Some(Str(s))) && IsText(Some(Str(s)), 255)
  {
    assert TrimLeft(s) == s && TrimRight(s) == s;
    AsciiLength(s);
  }

  lemma CpuExample()
    ensures CpuOk(CPU)
  {
    hide Lookup;
    assert |"MinimumISA"| == 10 && |"Codegen"| == 7 && |"HybridScheduling"| == 16 && |"VCPUs"| == 5;
    assert |"ServiceLogicalCPUs"| == 18 && |"SMTPolicy"| == 9;
    EachEntry(CPU);
    var e := CPU.entries;
    assert KeySet(e) == {e[0].key, e[1].key, e[2].key, e[3].key, e[4].key, e[5].key};
    assert Get(CPU, e[0].key) == Some(Str("sse4.2")) && Get(CPU, e[1].key) == Some(Str("auto"));
    assert Get(CPU, e[2].key) == Some(Str("capacity-aware")) && Get(CPU, e[3].key) == Some(Str("auto"));
    assert Get(CPU, e[4].key) == Some(Int(1)) && Get(CPU, e[5].key) == Some(Str("isolate-cells"));
  }

  lemma SecurityExample()
    ensures SecurityOk(SECURITY)
  {
    var e := SECURITY.entries;
    assert KeySet(e) == {e[0].key, e[1].key, e[2].key, e[3].key, e[4].key};
    assert |"VMXRequired"| == 11 && |"EPTRequired"| == 11 && |"IOMMURequired"| == 13 && |"DMABypass"| == 9;
    assert |"InterruptRemappingRequired"| == 26;
  }

  lemma MemoryExample()
    ensures MemoryOk(MEMORY)
  {
    hide Lookup;
    assert |"GuestMiB"| == 8 && |"HostReserveMiB"| == 14 && |"JITCacheMiB"| == 11;
    EachEntry(MEMORY);
    var e := MEMORY.entries;
    assert KeySet(e) == {e[0].key, e[1].key, e[2].key};
    assert Get(MEMORY, e[0].key) == Some(Int(2)) && Get(MEMORY, e[1].key) == Some(Int(1));
    assert Get(MEMORY, e[2].key) == Some(Int(1));
  }

  lemma GraphicsExample()
    ensures GraphicsOk(GRAPHICS)
  {
    hide Lookup, HasExactly;
    assert |"Device"| == 6 && |"DriverPolicy"| == 12 && |"MinimumProfile"| == 14 && |"OnUnsupported"| == 13;
    EachEntry(GRAPHICS);
    var e := GRAPHICS.entries;
    ExactKeys(GRAPHICS, {e[0].key, e[1].key, e[2].key, e[3].key});
    assert Get(GRAPHICS, e[0].key) == Some(Str("auto")) && Get(GRAPHICS, e[1].key) == Some(Str("allowlist"));
    assert Get(GRAPHICS, e[2].key) == Some(Str("display-only")) && Get(GRAPHICS, e[3].key) == Some(Str("display-only"));
  }

  lemma ExactKeys(v: Value, keys: set<string>)
    requires v.Dict? && KeySet(v.entries) == keys
    ensures HasExactly(v, keys)
  {
  }

  lemma BindingExample()
    ensures ItemOk(BINDING)
  {
    hide Lookup, IsGuid, IsId, IsText;
    assert |"ID"| == 2 && |"Backend"| == 7 && |"DeviceSerial"| == 12 && |"DiskGUID"| == 8 && "DiskGUID"[0] == 'D';
    assert |"PartitionGUID"| == 13 && |"SectorBytes"| == 11 && |"ReadOnly"| == 8 && "ReadOnly"[0] == 'R';
    EachEntry(BINDING);
    var e := BINDING.entries;
    assert KeySet(e) == {e[0].key, e[1].key, e[2].key, e[3].key, e[4].key, e[5].key, e[6].key};
    ShortId("d");
    ShortId("s");
    GuidExample();
    assert Get(BINDING, e[0].key) == Some(Str("d")) && Get(BINDING, e[1].key) == Some(Str("raw-gpt-partition"));
    assert Get(BINDING, e[2].key) == Some(Str("s")) && Get(BINDING, e[3].key) == Some(Str(GUID));
    assert Get(BINDING, e[4].key) == Some(Str(GUID)) && Get(BINDING, e[5].key) == Some(Int(512));
    assert Get(BINDING, e[6].key) == Some(Bool(false));
  }

  lemma GuidExample()
    ensures IsGuid(Some(Str(GUID)))
  {
    GuidText(GUID);
    assert GUID[0] == '1';
  }

  lemma ProfileExample()
    ensures ProfileResolves("p", false, REGISTRY)
  {
    hide IsId, IsText, IsHash;
    assert |"p"| == 1 && |CONFORMANCE_PROFILE| == 20;
    ShortId("c");
    ShortId("f");
    BuildExample();
    HashExample();
    FieldsExample();
  }

  lemma HashExample()
    ensures IsHash(Some(Str(HASH)))
  {
  }

  lemma BuildExample()
    ensures IsText(Some(Str("25A1")), 128) && IsBuildId("25A1")
  {
    var s := "25A1";
    assert s[..2] == "25";
    assert TrimLeft(s) == s && TrimRight(s) == s;
    AsciiLength(s);
  }

  /** The keys of the profile differ, so each field is the one that was written under it. */
  lemma FieldsExample()
    ensures Item(PROFILE, "Kind") == Some(Str("macos")) && Item(PROFILE, "BuildID") == Some(Str("25A1"))
    ensures Item(PROFILE, "ImageSHA256") == Some(Str(HASH)) && Item(PROFILE, "ABIVersion") == Some(Int(1))
    ensures Item(PROFILE, "MMUGranule") == Some(Int(4096)) && Item(PROFILE, "TimerFrequencyHz") == Some(Int(1))
    ensures Item(PROFILE, "BootABI") == Some(Str("iBoot")) && Item(PROFILE, "InterruptController") == Some(Str("AIC"))
    ensures Item(PROFILE, "SoCContract") == Some(Str("c")) && Item(PROFILE, "CPUFeatures") == Some(Arr([Str("f")]))
    ensures "GraphicsAdapter" in PROFILE && PROFILE["GraphicsAdapter"] == Absent
    ensures PROFILE.Keys == {"Kind", "BuildID", "ImageSHA256", "ABIVersion", "MMUGranule", "TimerFrequencyHz",
                             "BootABI", "InterruptController", "SoCContract", "CPUFeatures", "GraphicsAdapter"}
  {
    assert |"Kind"| == 4 && |"BuildID"| == 7 && |"BootABI"| == 7 && |"TimerFrequencyHz"| == 16;
    assert |"ABIVersion"| == 10 && |"MMUGranule"| == 10 && |"InterruptController"| == 19 && |"GraphicsAdapter"| == 15;
    assert |"ImageSHA256"| == 11 && |"SoCContract"| == 11 && |"CPUFeatures"| == 11;
    assert "BuildID"[1] == 'u' && "BootABI"[1] == 'o' && "ABIVersion"[0] == 'A' && "MMUGranule"[0] == 'M';
    assert "ImageSHA256"[0] == 'I' && "SoCContract"[0] == 'S' && "CPUFeatures"[0] == 'C';
  }

  lemma GuestExample()
    ensures GuestOk(GUEST, GRAPHICS, REGISTRY)
  {
    hide Lookup, ProfileResolves, IsId;
    assert |"ProfileID"| == 9 && |"RequireMetal"| == 12;
    EachEntry(GUEST);
    var e := GUEST.entries;
    assert KeySet(e) == {e[0].key, e[1].key};
    assert Get(GUEST, e[0].key) == Some(Str("p")) && Get(GUEST, e[1].key) == Some(Bool(false));
    ShortId("p");
    ProfileExample();
  }

  /** The configuration is accepted and selects build 25. */
  lemma ExampleSelects()
    ensures Normalize(EXAMPLE, REGISTRY).Some? && SelectedProfile(EXAMPLE, REGISTRY) == Some(Build(25))
  {
    hide Lookup, HasExactly, HeadOk, StorageOk, Normal, IsBuildId;
    ExampleNormalizes();
    NormalLookups(EXAMPLE, REGISTRY, "Guest");
    assert |"ProfileID"| == 9 && |"RequireMetal"| == 12;
    EachEntry(GUEST);
    assert Get(GUEST, GUEST.entries[0].key) == Some(Str("p"));
    assert |"p"| == 1 && |CONFORMANCE_PROFILE| == 20;
    BuildExample();
    FieldsExample();
    assert "25A1"[0] == '2' && "25A1"[1] == '5';
  }

  lemma ExampleNormalizes()
    ensures ConfigOk(EXAMPLE, REGISTRY) && Get(EXAMPLE, "Guest") == Some(GUEST)
  {
    hide Lookup, CpuOk, SecurityOk, MemoryOk, GraphicsOk, GuestOk, ItemOk;
    assert |"SchemaVersion"| == 13 && |"PlatformPolicy"| == 14 && |"CPU"| == 3 && |"Security"| == 8;
    assert |"Memory"| == 6 && |"Storage"| == 7 && |"Graphics"| == 8 && |"Guest"| == 5;
    assert "Security"[0] == 'S' && "Graphics"[0] == 'G';
    EachEntry(EXAMPLE);
    var e := EXAMPLE.entries;
    assert KeySet(e) == {e[0].key, e[1].key, e[2].key, e[3].key, e[4].key, e[5].key, e[6].key, e[7].key};
    assert Get(EXAMPLE, e[0].key) == Some(Int(1)) && Get(EXAMPLE, e[1].key) == Some(Str("AppleIntelOnly"));
    assert Get(EXAMPLE, e[2].key) == Some(CPU) && Get(EXAMPLE, e[3].key) == Some(SECURITY);
    assert Get(EXAMPLE, e[4].key) == Some(MEMORY) && Get(EXAMPLE, e[5].key) == Some(Arr([BINDING]));
    assert Get(EXAMPLE, e[6].key) == Some(GRAPHICS) && Get(EXAMPLE, e[7].key) == Some(GUEST);
    CpuExample();
    SecurityExample();
    MemoryExample();
    GraphicsExample();
    GuestExample();
    BindingExample();
  }
}
