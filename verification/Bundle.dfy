/** Signing, staging and verifying a bundle directory. */
module Bundle {
  import opened Bytes
  import opened Manifest
  import ElfAdmission
  import Config
  import ConfigExample
  import Plist

  const MANIFEST_FILE: string := "manifest.vfb"
  const SIGNATURE_FILE: string := "manifest.sig"
  const REPORT_FILE: string := "bundle-report.json"

  /**
   * What the bundle is built on and does not look into: hashes, one signature key pair, and the
   * parser of the configuration, which gives None where it raises; and the profile registry.
   */
  datatype Tools = Tools(
    sha256: Buffer -> Buffer, sha512: Buffer -> Buffer,
    sign: Buffer -> Buffer, public: Buffer, accepts: (Buffer, Buffer, Buffer) -> bool,
    parse: Buffer -> Option<Plist.Value>, registry: Config.Registry) {

    /** Digests have their lengths, and what was signed verifies under the public key. */
    ghost predicate Sound() {
      && (forall raw :: |sha256(raw)| == 32 && |sha512(raw)| == 64)
      && |public| == 32
      && forall raw :: |sign(raw)| == 64 && accepts(public, sign(raw), raw)
    }

    /** The guest profile that the normalized configuration selects; None where parsing or normalizing raises. */
    function Selects(raw: Buffer): Option<Config.Profile> {
      match parse(raw)
      case None => None
      case Some(config) => Config.SelectedProfile(config, registry)
    }

    function Describe(role: nat, instance: nat, raw: Buffer): Entry {
      Entry(role, instance, |raw|, sha256(raw), sha512(raw))
    }
  }

  /** The closing check of the profile against the target of the bundle. */
  predicate ProfileFits(p: Config.Profile, target: nat) { p == Config.Conformance || p.major + 1 == target }

  /** The configuration's profile passes the closing check. */
  predicate FitsTarget(t: Tools, config: Buffer, target: nat) {
    t.Selects(config).Some? && ProfileFits(t.Selects(config).value, target)
  }

  type Files = map<string, Buffer>

  function NameOf(e: Entry): string
    requires FileName(e.role, e.instance).Some?
  {
    FileName(e.role, e.instance).value
  }

  /** The payload is there, is what the entry describes, and is admissible in its role. */
  predicate EntryVerified(t: Tools, files: Files, e: Entry, target: nat)
    requires FileName(e.role, e.instance).Some?
  {
    && NameOf(e) in files
    && var raw := files[NameOf(e)];
    && 0 < |raw| <= SizeLimit(e.role) && t.Describe(e.role, e.instance, raw) == e
    && if e.role == ROLE_CONFIG then t.Selects(raw).Some? && ProfileFits(t.Selects(raw).value, target)
       else ElfAdmission.Admissible(raw)
  }

  predicate Expected(name: string, m: Contents)
    requires forall i | 0 <= i < |m.entries| :: FileName(m.entries[i].role, m.entries[i].instance).Some?
  {
    name in {MANIFEST_FILE, SIGNATURE_FILE, REPORT_FILE}
    || exists i | 0 <= i < |m.entries| :: name == NameOf(m.entries[i])
  }

  /** A directory that verifies against a key, a target and an epoch floor. */
  ghost predicate Verifies(t: Tools, key: Buffer, files: Files, target: nat, floor: nat) {
    && |key| == 32 && MANIFEST_FILE in files && SIGNATURE_FILE in files
    && var raw := files[MANIFEST_FILE];
    && |files[SIGNATURE_FILE]| == 64 && t.accepts(key, files[SIGNATURE_FILE], raw)
    && Parse(raw, target, floor).Ok?
    && var m := Parse(raw, target, floor).value;
    && (forall i | 0 <= i < |m.entries| :: FileName(m.entries[i].role, m.entries[i].instance).Some?)
    && (forall name | name in files :: Expected(name, m))
    && forall i | 0 <= i < |m.entries| :: EntryVerified(t, files, m.entries[i], target)
  }

  /** Every payload of a directory that verifies is, by size and by both digests, the one that was signed for. */
  lemma VerifiedPayload(t: Tools, key: Buffer, files: Files, target: nat, floor: nat, i: nat)
    requires Verifies(t, key, files, target, floor)
    requires i < |Parse(files[MANIFEST_FILE], target, floor).value.entries|
    ensures t.accepts(key, files[SIGNATURE_FILE], files[MANIFEST_FILE])
    ensures var e := Parse(files[MANIFEST_FILE], target, floor).value.entries[i];
            && FileName(e.role, e.instance).Some? && NameOf(e) in files
            && var raw := files[NameOf(e)];
            && 0 < |raw| == e.size && t.sha256(raw) == e.sha256 && t.sha512(raw) == e.sha512
            && (e.role == 1 ==> e.size <= 1_048_576 && FitsTarget(t, raw, target))
            && (e.role != 1 ==> e.size <= 67_108_864 && ElfAdmission.Admissible(raw))
  {
    hide Parse, ElfAdmission.Admissible, FileName, Expected, Tools.Selects;
    var e := Parse(files[MANIFEST_FILE], target, floor).value.entries[i];
    assert EntryVerified(t, files, e, target);
  }

  /**
   * Two directories that verify with the same manifest and differ in anything but the report and the
   * signature hold a payload for which both hash functions collide.
   */
  lemma TamperNeedsCollision(t: Tools, key: Buffer, files: Files, other: Files, target: nat, floor: nat)
    requires Verifies(t, key, files, target, floor) && Verifies(t, key, other, target, floor)
    requires files[MANIFEST_FILE] == other[MANIFEST_FILE]
    requires files - {SIGNATURE_FILE, REPORT_FILE} != other - {SIGNATURE_FILE, REPORT_FILE}
    ensures exists name ::
              && name in files && name in other && files[name] != other[name] && |files[name]| == |other[name]|
              && t.sha256(files[name]) == t.sha256(other[name]) && t.sha512(files[name]) == t.sha512(other[name])
  {
    hide Parse, ElfAdmission.Admissible, FileName, Tools.Selects, EntryVerified;
    var m := Parse(files[MANIFEST_FILE], target, floor).value;
    var a, b := files - {SIGNATURE_FILE, REPORT_FILE}, other - {SIGNATURE_FILE, REPORT_FILE};
    forall name ensures name in a <==> name in b {
      if name in a && name != MANIFEST_FILE {
        var i :| 0 <= i < |m.entries| && name == NameOf(m.entries[i]);
        VerifiedPayload(t, key, other, target, floor, i);
      }
      if name in b && name != MANIFEST_FILE {
        var i :| 0 <= i < |m.entries| && name == NameOf(m.entries[i]);
        VerifiedPayload(t, key, files, target, floor, i);
      }
    }
    assert a.Keys == b.Keys;
    var name :| name in a && a[name] != b[name];
    assert Expected(name, m);
    var i :| 0 <= i < |m.entries| && name == NameOf(m.entries[i]);
    VerifiedPayload(t, key, files, target, floor, i);
    VerifiedPayload(t, key, other, target, floor, i);
  }

  lemma EntriesNamed(m: Contents)
    requires ContentsOk(m)
    ensures forall i | 0 <= i < |m.entries| :: FileName(m.entries[i].role, m.entries[i].instance).Some?
  {
    assert forall i | 0 <= i < |m.entries| :: EntryOk(m.entries[i]);
  }

  /** An input file: its identity on the file system, and its bytes. */
  datatype Source = Source(identity: nat, content: Buffer)

  /**
   * The output directory and the calls on it. Unless it is reliable any call may fail, a failed
   * write may leave anything under its name, and inputs may change between two readings.
   */
  class Directory {
    const reliable: bool
    var present: bool
    var files: Files
    /** The names that were removed, and how many path checks and removals failed. */
    ghost var removed: set<string>
    ghost var cleanupFaults: nat

    ghost predicate Valid()
      reads this
    {
      !present ==> files == map[]
    }

    method Faults() returns (fault: bool)
      ensures reliable ==> !fault
    {
      fault := *;
      if reliable {
        fault := false;
      }
    }

    method MakeDirectory() returns (ok: bool)
      requires Valid()
      modifies `present, `files
      ensures Valid()
      ensures ok ==> !old(present) && present && files == map[]
      ensures !ok ==> present == old(present) && files == old(files)
      ensures reliable ==> ok == !old(present)
    {
      var fault := Faults();
      ok := !fault && !present;
      if ok {
        present, files := true, map[];
      }
    }

    /** `_write_new`: an exclusive write that is read back. */
    method WriteNew(name: string, raw: Buffer) returns (ok: bool)
      requires Valid() && present
      modifies `files
      ensures Valid()
      ensures ok ==> name !in old(files) && files == old(files)[name := raw]
      ensures !ok ==> files - {name} == old(files) - {name}
      ensures !ok && name in old(files) ==> files == old(files)
      ensures reliable && name !in old(files) && raw != [] ==> ok
    {
      ok := false;
      var refused := Faults();
      if !refused && name !in files {
        var staged: Buffer := raw;
        var broken := Faults();
        if broken {
          staged :| true;
        }
        files := files[name := staged];
        var unread := Faults();
        ok := !unread && staged == raw && raw != [];
      }
    }

    /** `_check_path` on the directory that was made. */
    method CheckPath() returns (ok: bool)
      requires Valid()
      modifies `cleanupFaults
      ensures cleanupFaults == old(cleanupFaults) + (if ok then 0 else 1)
      ensures reliable ==> ok
    {
      var fault := Faults();
      ok := !fault;
      if fault {
        cleanupFaults := cleanupFaults + 1;
      }
    }

    method Unlink(name: string) returns (ok: bool)
      requires Valid()
      modifies `files, `removed, `cleanupFaults
      ensures Valid()
      ensures cleanupFaults == old(cleanupFaults) + (if ok then 0 else 1)
      ensures files == if ok then old(files) - {name} else old(files)
      ensures removed == if ok then old(removed) + {name} else old(removed)
      ensures reliable ==> ok
    {
      var fault := Faults();
      ok := !fault;
      if ok {
        files, removed := files - {name}, removed + {name};
      } else {
        cleanupFaults := cleanupFaults + 1;
      }
    }
  }

  /** verify_bundle. Without faults it accepts exactly the directories that verify. */
  method VerifyBundle(t: Tools, key: Buffer, directory: Directory, target: nat, floor: nat)
    returns (r: Result<Contents>)
    ensures r.Ok? ==> Verifies(t, key, directory.files, target, floor)
                      && r == Parse(directory.files[MANIFEST_FILE], target, floor)
    ensures directory.reliable ==> (r.Ok? <==> Verifies(t, key, directory.files, target, floor))
  {
    hide Parse, ElfAdmission.Admissible, FileName, EntryVerified, Expected, ContentsOk, Tools.Selects;
    var files := directory.files;
    if |key| != 32 || MANIFEST_FILE !in files || SIGNATURE_FILE !in files || |files[SIGNATURE_FILE]| != 64 {
      return Err("External raw32 trusted public key and bundle directory required");
    }
    var unread := directory.Faults();
    if unread {
      return Err("OSError");
    }
    var raw := files[MANIFEST_FILE];
    if !t.accepts(key, files[SIGNATURE_FILE], raw) {
      return Err("Bundle signature failed against external trust key");
    }
    var parsed := ParseManifest(raw, target, floor);
    if parsed.Err? {
      return parsed;
    }
    var m := parsed.value;
    ParsedNamed(raw, target, floor);
    if !(forall name | name in files.Keys :: Expected(name, m)) {
      return Err("Unexpected file in bundle directory");
    }
    for i := 0 to |m.entries|
      invariant forall k | 0 <= k < i :: EntryVerified(t, files, m.entries[k], target)
    {
      var broken := directory.Faults();
      if broken {
        return Err("OSError");
      }
      if !EntryVerified(t, files, m.entries[i], target) {
        return Err("Bundle payload or profile mismatch");
      }
    }
    r := parsed;
  }

  lemma ParsedNamed(raw: Buffer, target: nat, floor: nat)
    requires Parse(raw, target, floor).Ok?
    ensures var m := Parse(raw, target, floor).value;
            ContentsOk(m) && forall i | 0 <= i < |m.entries| :: FileName(m.entries[i].role, m.entries[i].instance).Some?
  {
    EntriesNamed(Parse(raw, target, floor).value);
  }

  // Creating a bundle.

  datatype Input = Input(role: nat, instance: nat, source: Source)

  function ServicesFrom(services: map<nat, Source>, i: nat): seq<Input>
    decreases 65 - i
  {
    if i > 64 then []
    else (if i in services then [Input(ROLE_SERVICE, i, services[i])] else []) + ServicesFrom(services, i + 1)
  }

  /** The configuration, the core, and the services by ascending instance. */
  function Inputs(config: Source, core: Source, services: map<nat, Source>): seq<Input> {
    [Input(ROLE_CONFIG, 0, config), Input(ROLE_CORE, 0, core)] + ServicesFrom(services, 1)
  }

  predicate InputOk(t: Tools, input: Input) {
    && 0 < |input.source.content| <= SizeLimit(input.role)
    && if input.role == ROLE_CONFIG then t.Selects(input.source.content).Some?
       else ElfAdmission.Admissible(input.source.content)
  }

  /** What an input may be, in numbers. */
  lemma InputMeans(t: Tools, input: Input)
    requires input.role in {1, 2, 3}
    ensures InputOk(t, input) <==>
              var raw := input.source.content;
              && 0 < |raw|
              && (input.role == 1 ==> |raw| <= 1_048_576 && t.Selects(raw).Some?)
              && (input.role != 1 ==> |raw| <= 67_108_864 && ElfAdmission.Admissible(raw))
  {
    hide ElfAdmission.Admissible, Tools.Selects;
  }

  /** Every input is admissible in its role and no file is given twice, under a link or otherwise. */
  predicate InputsOk(t: Tools, inputs: seq<Input>) {
    && (forall i | 0 <= i < |inputs| :: InputOk(t, inputs[i]))
    && forall i, j | 0 <= i < j < |inputs| :: inputs[i].source.identity != inputs[j].source.identity
  }

  function Described(t: Tools, inputs: seq<Input>): (entries: seq<Entry>)
    ensures |entries| == |inputs|
  {
    seq(|inputs|,
        i requires 0 <= i < |inputs| => t.Describe(inputs[i].role, inputs[i].instance, inputs[i].source.content))
  }

  predicate ServicesNamed(services: map<nat, Source>) { services != map[] && forall i | i in services :: 1 <= i <= 64 }

  /** Exactly the given services, in this stretch of instances. */
  lemma {:induction false} ServicesListed(services: map<nat, Source>, i: nat)
    requires 1 <= i <= 65
    ensures |ServicesFrom(services, i)| <= 65 - i
    ensures forall input :: input in ServicesFrom(services, i) <==>
              && input.role == ROLE_SERVICE && i <= input.instance <= 64
              && input.instance in services && input.source == services[input.instance]
    decreases 65 - i
  {
    if i <= 64 {
      ServicesListed(services, i + 1);
    }
  }

  lemma {:induction false} ServicesAscend(services: map<nat, Source>, i: nat)
    requires 1 <= i <= 65
    ensures var inputs := ServicesFrom(services, i);
            forall k, l | 0 <= k < l < |inputs| :: inputs[k].instance < inputs[l].instance
    decreases 65 - i
  {
    if i <= 64 {
      ServicesAscend(services, i + 1);
      ServicesListed(services, i + 1);
      AscendFrom(services, i, ServicesFrom(services, i + 1));
    }
  }

  lemma AscendFrom(services: map<nat, Source>, i: nat, rest: seq<Input>)
    requires 1 <= i <= 64 && rest == ServicesFrom(services, i + 1)
    requires forall input :: input in rest ==> i < input.instance
    requires forall k, l | 0 <= k < l < |rest| :: rest[k].instance < rest[l].instance
    ensures var inputs := ServicesFrom(services, i);
            forall k, l | 0 <= k < l < |inputs| :: inputs[k].instance < inputs[l].instance
  {
    if i in services {
      var first := Input(ROLE_SERVICE, i, services[i]);
      var inputs := [first] + rest;
      assert ServicesFrom(services, i) == inputs;
      hide ServicesFrom;
      forall k, l | 0 <= k < l < |inputs| ensures inputs[k].instance < inputs[l].instance {
        assert inputs[l] == rest[l - 1] && rest[l - 1] in rest;
        if k > 0 {
          assert inputs[k] == rest[k - 1];
        }
      }
    }
  }

  /** At least one service, all of them with a valid instance, in ascending order. */
  lemma ServicesOrdered(services: map<nat, Source>)
    requires ServicesNamed(services)
    ensures var tail := ServicesFrom(services, 1);
            && 1 <= |tail| <= 64
            && (forall k | 0 <= k < |tail| :: tail[k].role == ROLE_SERVICE && 1 <= tail[k].instance <= 64)
            && forall k, l | 0 <= k < l < |tail| :: tail[k].instance < tail[l].instance
  {
    hide ServicesFrom;
    var tail := ServicesFrom(services, 1);
    ServicesListed(services, 1);
    ServicesAscend(services, 1);
    var some :| some in services;
    assert Input(ROLE_SERVICE, some, services[some]) in tail;
    assert forall k | 0 <= k < |tail| :: tail[k] in tail;
  }

  predicate InputBefore(a: Input, b: Input) { a.role < b.role || (a.role == b.role && a.instance < b.instance) }

  /** One configuration, one core, then services, each with a name, in the order of the manifest. */
  lemma InputsOrdered(config: Source, core: Source, services: map<nat, Source>)
    requires ServicesNamed(services)
    ensures var inputs := Inputs(config, core, services);
            && 3 <= |inputs| <= MAX_ENTRIES
            && inputs[0].role == ROLE_CONFIG && inputs[1].role == ROLE_CORE && inputs[2].role == ROLE_SERVICE
            && (forall i | 0 <= i < |inputs| :: FileName(inputs[i].role, inputs[i].instance).Some?)
            && forall i, j | 0 <= i < j < |inputs| :: InputBefore(inputs[i], inputs[j])
  {
    hide FileName, ServicesFrom;
    var inputs, tail := Inputs(config, core, services), ServicesFrom(services, 1);
    ServicesOrdered(services);
    forall i | 2 <= i < |inputs| ensures inputs[i] == tail[i - 2] {
    }
    forall i | 0 <= i < |inputs| ensures FileName(inputs[i].role, inputs[i].instance).Some? {
      NamedInput(inputs[i].role, inputs[i].instance);
    }
    forall i, j | 0 <= i < j < |inputs| ensures InputBefore(inputs[i], inputs[j]) {
      if i >= 2 {
        assert inputs[i] == tail[i - 2] && inputs[j] == tail[j - 2];
      }
    }
  }

  /** What passes the checks of the inputs can be packed, and the manifest can be parsed again. */
  lemma DescribedOk(t: Tools, config: Source, core: Source, services: map<nat, Source>, target: nat, epoch: nat)
    requires t.Sound() && TargetEpochOk(target, epoch) && ServicesNamed(services)
    requires InputsOk(t, Inputs(config, core, services))
    ensures ContentsOk(Contents(target, epoch, Described(t, Inputs(config, core, services))))
  {
    hide FileName, ElfAdmission.Admissible, Inputs, TargetEpochOk, InputOk;
    var inputs := Inputs(config, core, services);
    var entries := Described(t, inputs);
    InputsOrdered(config, core, services);
    forall i | 0 <= i < |entries| ensures EntryOk(entries[i]) {
      AcceptedSize(t, inputs[i]);
    }
    assert forall i, j | 0 <= i < j < |entries| :: InputBefore(inputs[i], inputs[j]);
  }

  lemma AcceptedSize(t: Tools, input: Input)
    requires InputOk(t, input)
    ensures 0 < |input.source.content| <= SizeLimit(input.role)
  {
  }

  lemma NamedInput(role: nat, instance: nat)
    requires (role == ROLE_CONFIG && instance == 0) || (role == ROLE_CORE && instance == 0)
             || (role == ROLE_SERVICE && 1 <= instance <= 64)
    ensures FileName(role, instance).Some?
  {
  }

  /** No payload takes the name of the manifest, the signature or the report. */
  lemma NamesApart(role: nat, instance: nat)
    requires FileName(role, instance).Some?
    ensures FileName(role, instance).value !in {MANIFEST_FILE, SIGNATURE_FILE, REPORT_FILE}
    ensures MANIFEST_FILE != SIGNATURE_FILE && MANIFEST_FILE != REPORT_FILE && SIGNATURE_FILE != REPORT_FILE
  {
    assert FileName(role, instance).value[0] == 'c';
    assert MANIFEST_FILE[0] == 'm' && SIGNATURE_FILE[0] == 'm' && REPORT_FILE[0] == 'b';
    assert MANIFEST_FILE[9] == 'v' && SIGNATURE_FILE[9] == 's';
  }

  /** The directory holds the first n payloads under their names, and nothing else. */
  predicate HoldsPayloads(files: Files, m: Contents, inputs: seq<Input>, n: nat)
    requires ContentsOk(m) && |m.entries| == |inputs| && n <= |inputs|
  {
    EntriesNamed(m);
    && (forall i | 0 <= i < n ::
          NameOf(m.entries[i]) in files && files[NameOf(m.entries[i])] == inputs[i].source.content)
    && forall name | name in files :: exists i | 0 <= i < n :: name == NameOf(m.entries[i])
  }

  lemma OneMorePayload(files: Files, m: Contents, inputs: seq<Input>, n: nat)
    requires ContentsOk(m) && |m.entries| == |inputs| && n < |inputs| && HoldsPayloads(files, m, inputs, n)
    ensures EntryOk(m.entries[n]) && NameOf(m.entries[n]) !in files
    ensures HoldsPayloads(files[NameOf(m.entries[n]) := inputs[n].source.content], m, inputs, n + 1)
  {
    hide FileName, ContentsOk;
    EntriesNamed(m);
    AllEntriesOk(m);
    forall i | 0 <= i < n ensures NameOf(m.entries[i]) != NameOf(m.entries[n]) {
      FileNamesDistinct(m, i, n);
    }
  }

  lemma AllEntriesOk(m: Contents)
    requires ContentsOk(m)
    ensures forall i | 0 <= i < |m.entries| :: EntryOk(m.entries[i])
    ensures |m.entries| > 0
  {
  }

  /** The manifest an accepted set of inputs is described by, and its signature. */
  ghost predicate Staged(t: Tools, files: Files, m: Contents, inputs: seq<Input>)
    requires ContentsOk(m) && |m.entries| == |inputs|
  {
    DigestSizes(m);
    && MANIFEST_FILE in files && files[MANIFEST_FILE] == Pack(m)
    && SIGNATURE_FILE in files && files[SIGNATURE_FILE] == t.sign(Pack(m))
    && HoldsPayloads(files - {MANIFEST_FILE, SIGNATURE_FILE}, m, inputs, |inputs|)
  }

  /**
   * The closing verification never rejects what was staged from accepted inputs, except over the
   * profile: it accepts exactly when the profile is the conformance one or its build belongs to
   * the target.
   */
  lemma StagedVerifies(t: Tools, files: Files, m: Contents, inputs: seq<Input>)
    requires t.Sound() && ContentsOk(m) && m.entries == Described(t, inputs)
    requires InputsOk(t, inputs) && Staged(t, files, m, inputs)
    ensures Verifies(t, t.public, files, m.target, m.epoch) <==> FitsTarget(t, inputs[0].source.content, m.target)
  {
    hide FileName, Pack, Parse, ElfAdmission.Admissible, Sorted, Tools.Selects;
    DigestSizes(m);
    ParsePack(m, m.epoch);
    EntriesNamed(m);
    var payloads := files - {MANIFEST_FILE, SIGNATURE_FILE};
    forall i | 0 <= i < |inputs|
      ensures EntryVerified(t, files, m.entries[i], m.target)
              <==> (i == 0 ==> ProfileFits(t.Selects(inputs[0].source.content).value, m.target))
    {
      RolesForced(m, i);
      assert InputOk(t, inputs[i]);
      assert NameOf(m.entries[i]) in payloads;
      assert m.entries[i] == t.Describe(inputs[i].role, inputs[i].instance, inputs[i].source.content);
    }
    forall name | name in files ensures Expected(name, m) {
      if name !in {MANIFEST_FILE, SIGNATURE_FILE} {
        assert name in payloads;
      }
    }
    assert InputOk(t, inputs[0]);
  }

  /** Accepted inputs with a registered profile fit exactly one of the two targets, the conformance profile both. */
  lemma OneTarget(t: Tools, config: Source, core: Source, services: map<nat, Source>)
    requires InputsOk(t, Inputs(config, core, services))
    ensures t.Selects(config.content).Some?
    ensures if t.Selects(config.content) == Some(Config.Conformance)
            then FitsTarget(t, config.content, 26) && FitsTarget(t, config.content, 27)
            else FitsTarget(t, config.content, 26) <==> !FitsTarget(t, config.content, 27)
  {
    hide ServicesFrom, Config.SelectedProfile;
    assert InputOk(t, Inputs(config, core, services)[0]);
    Config.SelectedMajor(t.parse(config.content).value, t.registry);
  }

  /**
   * The other target is a misfit: inputs exist that are all admissible, no file given twice, and
   * nothing that is faithfully staged from them for that target verifies.
   */
  lemma AcceptedMisfit() returns (t: Tools, config: Source, core: Source, services: map<nat, Source>)
    ensures t.Sound() && TargetEpochOk(27, 1) && ServicesNamed(services)
    ensures InputsOk(t, Inputs(config, core, services)) && t.Selects(config.content) == Some(Config.Build(25))
    ensures forall files: Files, m: Contents |
              && ContentsOk(m) && m.target == 27 && m.entries == Described(t, Inputs(config, core, services))
              && Staged(t, files, m, Inputs(config, core, services)) ::
              !Verifies(t, t.public, files, m.target, m.epoch)
  {
    hide ElfAdmission.Admissible, ElfAdmission.Tiny, ContentsOk, Staged, Verifies, Tools.Selects;
    t := ExampleTools();
    config := Source(0, [0]);
    core, services := Source(1, ElfAdmission.Tiny()), map[1 := Source(2, ElfAdmission.Tiny())];
    var inputs := Inputs(config, core, services);
    ElfAdmission.TinyAdmissible();
    OneService(services[1], 1);
    assert inputs == [Input(ROLE_CONFIG, 0, config), Input(ROLE_CORE, 0, core), Input(ROLE_SERVICE, 1, services[1])];
    forall files: Files, m: Contents |
      ContentsOk(m) && m.target == 27 && m.entries == Described(t, inputs) && Staged(t, files, m, inputs)
      ensures !Verifies(t, t.public, files, m.target, m.epoch)
    {
      StagedVerifies(t, files, m, inputs);
    }
  }

  /** Tools under which every configuration file holds this one. */
  lemma ToolsFor(config: Plist.Value, registry: Config.Registry) returns (t: Tools)
    ensures t.Sound() && forall raw :: t.Selects(raw) == Config.SelectedProfile(config, registry)
  {
    hide Config.SelectedProfile;
    var digest, long := seq(32, _ => 0), seq(64, _ => 0);
    t := Tools((raw: Buffer) => digest, (raw: Buffer) => long, (raw: Buffer) => long, digest,
               (key: Buffer, signature: Buffer, raw: Buffer) => true, (raw: Buffer) => Some(config), registry);
  }

  lemma ExampleTools() returns (t: Tools)
    ensures t.Sound() && forall raw :: t.Selects(raw) == Some(Config.Build(25))
  {
    hide Config.SelectedProfile, Tools.Selects, Tools.Sound;
    ConfigExample.ExampleSelects();
    t := ToolsFor(ConfigExample.EXAMPLE, ConfigExample.REGISTRY);
  }

  lemma {:induction false} OneService(service: Source, i: nat)
    requires 1 <= i <= 65
    ensures ServicesFrom(map[1 := service], i) == if i == 1 then [Input(ROLE_SERVICE, 1, service)] else []
    decreases 65 - i
  {
    if i <= 64 {
      OneService(service, i + 1);
    }
  }

  /** The report next to a bundle does not count in its verification. */
  lemma ReportIgnored(t: Tools, key: Buffer, files: Files, target: nat, floor: nat, report: Buffer)
    requires Verifies(t, key, files, target, floor)
    ensures Verifies(t, key, files[REPORT_FILE := report], target, floor)
  {
    hide FileName, Parse, ElfAdmission.Admissible, ContentsOk, Tools.Selects;
    var more := files[REPORT_FILE := report];
    ParsedNamed(files[MANIFEST_FILE], target, floor);
    var m := Parse(files[MANIFEST_FILE], target, floor).value;
    forall i | 0 <= i < |m.entries| ensures EntryVerified(t, more, m.entries[i], target) {
      NamesApart(m.entries[i].role, m.entries[i].instance);
    }
    NamedInput(ROLE_CONFIG, 0);
    NamesApart(ROLE_CONFIG, 0);
  }

  /** The first pass over the inputs. */
  method CheckInputs(t: Tools, directory: Directory, inputs: seq<Input>) returns (r: Result<seq<Entry>>)
    ensures r.Ok? ==> InputsOk(t, inputs) && r.value == Described(t, inputs)
    ensures directory.reliable ==> (r.Ok? <==> InputsOk(t, inputs))
  {
    hide InputOk;
    var records: seq<Entry>, aliases: set<nat> := [], {};
    for i := 0 to |inputs|
      invariant records == Described(t, inputs)[..i]
      invariant forall k | 0 <= k < i :: InputOk(t, inputs[k])
      invariant forall id :: id in aliases <==> exists k | 0 <= k < i :: inputs[k].source.identity == id
      invariant forall k, l | 0 <= k < l < i :: inputs[k].source.identity != inputs[l].source.identity
    {
      var input := inputs[i];
      var unread := directory.Faults();
      if unread {
        return Err("OSError");
      }
      if input.source.identity in aliases {
        return Err("Duplicate/hardlinked bundle inputs are forbidden");
      }
      aliases := aliases + {input.source.identity};
      if !InputOk(t, input) {
        return Err("Inadmissible bundle input");
      }
      records := records + [t.Describe(input.role, input.instance, input.source.content)];
    }
    r := Ok(records);
  }

  /** The second reading of an input; the bytes that go on are those the manifest describes. */
  method ReadAgain(t: Tools, directory: Directory, input: Input, e: Entry) returns (r: Option<Buffer>)
    requires e == t.Describe(input.role, input.instance, input.source.content)
    ensures r.Some? ==> t.Describe(e.role, e.instance, r.value) == e
    ensures directory.reliable ==> r == Some(input.source.content)
  {
    var raw := input.source.content;
    var changed := directory.Faults();
    if changed {
      raw :| true;
    }
    var unread := directory.Faults();
    if unread || |raw| != e.size || t.sha256(raw) != e.sha256 || t.sha512(raw) != e.sha512 {
      return None;
    }
    r := Some(raw);
  }

  /** Copies every payload under its name. */
  method StagePayloads(t: Tools, directory: Directory, m: Contents, inputs: seq<Input>) returns (ok: bool)
    requires directory.Valid() && directory.present && directory.files == map[]
    requires ContentsOk(m) && m.entries == Described(t, inputs) && InputsOk(t, inputs)
    modifies directory`files
    ensures directory.Valid()
    ensures SIGNATURE_FILE !in directory.files
    ensures directory.reliable ==> ok && HoldsPayloads(directory.files, m, inputs, |inputs|)
  {
    hide FileName, ContentsOk, InputOk, HoldsPayloads;
    EntriesNamed(m);
    NoPayloads(m, inputs);
    for i := 0 to |inputs|
      invariant directory.Valid() && SIGNATURE_FILE !in directory.files
      invariant directory.reliable ==> HoldsPayloads(directory.files, m, inputs, i)
    {
      var entry := m.entries[i];
      NamesApart(entry.role, entry.instance);
      AcceptedSize(t, inputs[i]);
      var raw := ReadAgain(t, directory, inputs[i], entry);
      if raw.None? {
        return false;
      }
      if directory.reliable {
        OneMorePayload(directory.files, m, inputs, i);
      }
      ghost var before := directory.files;
      var written := directory.WriteNew(NameOf(entry), raw.value);
      if !written {
        OtherNames(before, directory.files, NameOf(entry), SIGNATURE_FILE);
        return false;
      }
    }
    ok := true;
  }

  lemma NoPayloads(m: Contents, inputs: seq<Input>)
    requires ContentsOk(m) && |m.entries| == |inputs|
    ensures HoldsPayloads(map[], m, inputs, 0)
  {
  }

  lemma OtherNames(before: Files, after: Files, name: string, other: string)
    requires after - {name} == before - {name} && other != name
    ensures other in after <==> other in before
  {
    assert other in after - {name} <==> other in before - {name};
  }

  /** The body of the try block: everything from the first copy to the report. */
  method Stage(t: Tools, directory: Directory, m: Contents, inputs: seq<Input>) returns (ok: bool)
    requires directory.Valid() && directory.present && directory.files == map[] && t.Sound()
    requires ContentsOk(m) && m.entries == Described(t, inputs) && InputsOk(t, inputs)
    modifies directory`files
    ensures directory.Valid()
    ensures ok ==> Verifies(t, t.public, directory.files, m.target, m.epoch)
    ensures directory.reliable ==> (ok <==> inputs != [] && FitsTarget(t, inputs[0].source.content, m.target))
    ensures directory.reliable && ok ==> HoldsBundle(t, directory.files - {REPORT_FILE}, m, inputs)
  {
    hide FileName, ContentsOk, InputOk, HoldsPayloads, Pack, Verifies, FitsTarget;
    AllEntriesOk(m);
    DigestSizes(m);
    NamedInput(ROLE_CONFIG, 0);
    NamesApart(ROLE_CONFIG, 0);
    var copied := StagePayloads(t, directory, m, inputs);
    ghost var payloads := directory.files;
    if !copied {
      return false;
    }
    var raw := Pack(m);
    if directory.reliable {
      PayloadNames(payloads, m, inputs);
    }
    var described := directory.WriteNew(MANIFEST_FILE, raw);
    if !described {
      return false;
    }
    var signed := directory.WriteNew(SIGNATURE_FILE, t.sign(raw));
    if !signed {
      return false;
    }
    ghost var staged := directory.files;
    if directory.reliable {
      assert staged - {MANIFEST_FILE, SIGNATURE_FILE} == payloads;
      StagedVerifies(t, staged, m, inputs);
    }
    var verified := VerifyBundle(t, t.public, directory, m.target, m.epoch);
    if verified.Err? {
      return false;
    }
    var report: Buffer := [0x7B];
    ReportIgnored(t, t.public, staged, m.target, m.epoch, report);
    ok := directory.WriteNew(REPORT_FILE, report);
    assert ok && directory.reliable ==> directory.files - {REPORT_FILE} == staged;
  }

  /** Payloads leave the three other names free. */
  lemma PayloadNames(files: Files, m: Contents, inputs: seq<Input>)
    requires ContentsOk(m) && |m.entries| == |inputs| && HoldsPayloads(files, m, inputs, |inputs|)
    ensures MANIFEST_FILE !in files && SIGNATURE_FILE !in files && REPORT_FILE !in files
  {
    hide FileName, ContentsOk;
    EntriesNamed(m);
    forall i | 0 <= i < |m.entries| ensures NameOf(m.entries[i]) !in {MANIFEST_FILE, SIGNATURE_FILE, REPORT_FILE} {
      NamesApart(m.entries[i].role, m.entries[i].instance);
    }
  }

  /** The directory holds the inputs, the manifest that describes them, and its signature. */
  ghost predicate HoldsBundle(t: Tools, files: Files, m: Contents, inputs: seq<Input>) {
    ContentsOk(m) && m.entries == Described(t, inputs) && Staged(t, files, m, inputs)
  }

  /**
   * create_bundle. A bundle that is returned verifies. A call that ends with an error leaves no
   * signature behind, unless the path check or the removal of the cleanup fails, and touches nothing
   * that was there before; nothing but the signature is ever removed. Without faults the call
   * succeeds exactly when the request and the inputs are acceptable, the directory is new, and the
   * profile fits the target.
   */
  method CreateBundle(t: Tools, config: Source, core: Source, services: map<nat, Source>, directory: Directory,
                      target: nat, epoch: nat)
    returns (r: Result<Contents>)
    requires t.Sound() && directory.Valid()
    modifies directory
    ensures directory.Valid()
    ensures r.Ok? ==> Verifies(t, t.public, directory.files, target, epoch)
    ensures r.Err? && !old(directory.present) && directory.cleanupFaults == old(directory.cleanupFaults) ==>
              SIGNATURE_FILE !in directory.files
    ensures directory.removed - old(directory.removed) <= if r.Ok? then {} else {SIGNATURE_FILE}
    ensures old(directory.present) ==> r.Err? && directory.files == old(directory.files)
    ensures directory.reliable ==> directory.cleanupFaults == old(directory.cleanupFaults)
    ensures directory.reliable ==>
              (r.Ok? <==>
                 && !old(directory.present) && TargetEpochOk(target, epoch) && ServicesNamed(services)
                 && InputsOk(t, Inputs(config, core, services)) && FitsTarget(t, config.content, target))
    ensures directory.reliable && r.Ok? ==>
              HoldsBundle(t, directory.files - {REPORT_FILE}, r.value, Inputs(config, core, services))
  {
    hide FileName, ContentsOk, InputOk, InputsOk, Verifies, FitsTarget, HoldsBundle, Described, ServicesFrom;
    if !TargetEpochOk(target, epoch) {
      return Err("Target major or release epoch");
    }
    if services == map[] || exists i | i in services.Keys :: !(1 <= i <= 64) {
      return Err("One to 64 explicitly indexed service ELF inputs are required");
    }
    if directory.present {
      return Err("Output directory already exists");
    }
    var inputs := Inputs(config, core, services);
    var records := CheckInputs(t, directory, inputs);
    if records.Err? {
      return Err(records.error);
    }
    DescribedOk(t, config, core, services, target, epoch);
    var m := Contents(target, epoch, records.value);
    var made := directory.MakeDirectory();
    if !made {
      return Err("OSError");
    }
    var staged := Stage(t, directory, m, inputs);
    if !staged {
      var checked := directory.CheckPath();
      if checked {
        var _ := directory.Unlink(SIGNATURE_FILE);
      }
      return Err("BundleError");
    }
    r := Ok(m);
  }
}
