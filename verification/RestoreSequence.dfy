/** The restore sequence after Stage2: prepare every role, upload and name it in order, then boot. */
module RestoreSequence {
  import opened Bytes
  import opened DfuSchedule
  import opened UsbBridge
  import opened RecoveryTransport
  import Im4p

  datatype Role = Logo | TrustCache | RamDisk | DeviceTree | KernelCache

  const ROLES: seq<Role> := [Logo, TrustCache, RamDisk, DeviceTree, KernelCache]
  const REQUIRED: set<Role> := {TrustCache, RamDisk, DeviceTree, KernelCache}

  function RoleName(role: Role): string {
    match role
    case Logo => "RestoreLogo"
    case TrustCache => "RestoreTrustCache"
    case RamDisk => "RestoreRamDisk"
    case DeviceTree => "RestoreDeviceTree"
    case KernelCache => "RestoreKernelCache"
  }

  // Preparing the images.

  type Hash = (string, Buffer) -> Buffer

  /** The image sent for a role: the normalized source in an envelope with the ticket. */
  function Prepared(raw: Buffer, role: Role, digest: Buffer, hash: Hash, ticket: Buffer): Result<Buffer> {
    if |raw| > MAX_RECOVERY then Err("role file exceeds its limit")
    else
      match Im4p.NormalizeRole(raw, RoleName(role), digest, hash)
      case Err(e) => Err(e)
      case Ok(normalized) => Im4p.WrapRole(normalized, ticket)
  }

  /** A prepared image reads back as its normalized role and the ticket, and travels as one transfer of its bytes. */
  lemma PreparedImage(raw: Buffer, role: Role, digest: Buffer, hash: Hash, ticket: Buffer)
    requires Prepared(raw, role, digest, hash, ticket).Ok?
    ensures var image := Prepared(raw, role, digest, hash, ticket).value;
            var normalized := Im4p.NormalizeRole(raw, RoleName(role), digest, hash);
            && normalized.Ok? && Im4p.ReadsAsEnvelope(image, normalized.value, ticket)
            && OneTransfer(BulkWrites(image), image)
  {
    hide Im4p.NormalizeRole, Im4p.ReadsAsEnvelope, OneTransfer, BulkWrites, RoleName;
    Im4p.PipelineTotal(raw, RoleName(role), digest, hash, ticket);
    RecoveredImage(Prepared(raw, role, digest, hash, ticket).value);
  }

  type Images = map<Role, Buffer>

  method Prepare(sources: Images, digests: Images, hash: Hash, ticket: Buffer) returns (r: Result<Images>)
    ensures r.Ok? <==> forall role | role in sources ::
                         role in digests && Prepared(sources[role], role, digests[role], hash, ticket).Ok?
    ensures r.Ok? ==>
              && r.value.Keys == sources.Keys
              && forall role | role in sources ::
                   role in digests && Prepared(sources[role], role, digests[role], hash, ticket) == Ok(r.value[role])
  {
    hide Prepared;
    var images: Images := map[];
    AllRoles();
    for i := 0 to |ROLES|
      invariant forall role | role in sources ::
                  role in images <==> role in ROLES[..i]
      invariant forall role | role in images ::
                  && role in sources && role in digests
                  && Prepared(sources[role], role, digests[role], hash, ticket) == Ok(images[role])
    {
      var role := ROLES[i];
      assert ROLES[..i + 1] == ROLES[..i] + [role];
      if role in sources {
        if role !in digests {
          return Err("BuildManifest is missing the digest");
        }
        var image := Prepared(sources[role], role, digests[role], hash, ticket);
        if image.Err? {
          return Err(image.error);
        }
        images := images[role := image.value];
      }
    }
    assert ROLES[..|ROLES|] == ROLES;
    r := Ok(images);
  }

  lemma AllRoles()
    ensures forall role: Role :: role in ROLES
  {
    forall role: Role ensures role in ROLES {
      match role
      case Logo => assert ROLES[0] == role;
      case TrustCache => assert ROLES[1] == role;
      case RamDisk => assert ROLES[2] == role;
      case DeviceTree => assert ROLES[3] == role;
      case KernelCache => assert ROLES[4] == role;
    }
  }

  // The plan.

  datatype Step = Upload(image: Buffer) | Say(text: string, request: int)

  /** What the device takes when a step succeeds. */
  function Effect(step: Step): seq<Taken> {
    match step
    case Upload(image) => BulkWrites(image)
    case Say(text, request) => [Command(request, Encoded(text))]
  }

  function Effects(steps: seq<Step>): seq<Taken>
    decreases |steps|
  {
    if steps == [] then [] else Effects(steps[..|steps| - 1]) + Effect(steps[|steps| - 1])
  }

  /** Everything before the extra commands: each image, and the command that names it. */
  function Opening(images: Images): seq<Step>
    requires REQUIRED <= images.Keys
  {
    (if Logo in images then [Upload(images[Logo]), Say("setpicture 4", 0), Say("bgcolor 0 0 0", 0)] else [])
    + [Upload(images[TrustCache]), Say("firmware", 0), Upload(images[RamDisk]), Say("ramdisk", 0),
       Upload(images[DeviceTree]), Say("devicetree", 0), Upload(images[KernelCache])]
  }

  function Closing(bootArgs: string): seq<Step> { [Say("setenv boot-args " + bootArgs, 0), Say("bootx", 1)] }

  /** Each of the commands, in their order, was taken or was refused. */
  predicate Answered(said: seq<Step>, refused: seq<Taken>, extras: seq<string>)
    decreases |extras|
  {
    if extras == [] then said == [] && refused == []
    else
      var n := |extras| - 1;
      || (said != [] && said[|said| - 1] == Say(extras[n], 0) && Answered(said[..|said| - 1], refused, extras[..n]))
      || (refused != [] && refused[|refused| - 1] == Command(0, Encoded(extras[n]))
          && Answered(said, refused[..|refused| - 1], extras[..n]))
  }

  // What the device holds at the end.

  /** The writes of an image and the command that names it. */
  function Named(image: Buffer, text: string): seq<Taken> { BulkWrites(image) + [Command(0, Encoded(text))] }

  /** Everything the recovery mode takes in a whole sequence, the extra commands it took being given. */
  function Record(images: Images, extras: seq<Taken>, bootArgs: string): seq<Taken>
    requires REQUIRED <= images.Keys
  {
    (if Logo in images then Named(images[Logo], "setpicture 4") + [Command(0, Encoded("bgcolor 0 0 0"))] else [])
    + Named(images[TrustCache], "firmware") + Named(images[RamDisk], "ramdisk")
    + Named(images[DeviceTree], "devicetree") + BulkWrites(images[KernelCache])
    + extras
    + [Command(0, Encoded("setenv boot-args " + bootArgs)), Command(1, Encoded("bootx"))]
  }

  /** Somewhere in the record this stretch stands. */
  ghost predicate Holds(record: seq<Taken>, part: seq<Taken>) {
    exists front: seq<Taken>, rest: seq<Taken> :: record == front + part + rest
  }

  /** The image is written directly behind `devicetree`, and nothing is written after it. */
  ghost predicate WrittenLast(record: seq<Taken>, image: Buffer) {
    exists front: seq<Taken>, rest: seq<Taken> ::
      && record == front + ([Command(0, Encoded("devicetree"))] + BulkWrites(image)) + rest
      && forall i | 0 <= i < |rest| :: !rest[i].Write?
  }

  /** Each image is named by its own command, the kernel comes last, and bootx ends it behind the boot arguments. */
  ghost predicate Spelled(record: seq<Taken>, images: Images, bootArgs: string)
    requires REQUIRED <= images.Keys
  {
    && (Logo in images ==> Holds(record, BulkWrites(images[Logo]) + [Command(0, Encoded("setpicture 4"))]))
    && Holds(record, BulkWrites(images[TrustCache]) + [Command(0, Encoded("firmware"))])
    && Holds(record, BulkWrites(images[RamDisk]) + [Command(0, Encoded("ramdisk"))])
    && Holds(record, BulkWrites(images[DeviceTree]) + [Command(0, Encoded("devicetree"))])
    && WrittenLast(record, images[KernelCache])
    && |record| >= 2
    && record[|record| - 2..] == [Command(0, Encoded("setenv boot-args " + bootArgs)), Command(1, Encoded("bootx"))]
  }

  lemma HoldsLast(front: seq<Taken>, part: seq<Taken>)
    ensures Holds(front + part, part)
  {
    assert front + part == front + part + [];
  }

  lemma HoldsOn(record: seq<Taken>, part: seq<Taken>, more: seq<Taken>)
    requires Holds(record, part)
    ensures Holds(record + more, part)
  {
    var front: seq<Taken>, rest: seq<Taken> :| record == front + part + rest;
    Associative(front + part, rest, more);
  }

  /** The kernel behind its predecessor, and what follows. */
  lemma KernelLast(front: seq<Taken>, tree: Buffer, kernel: Buffer, extras: seq<Taken>, closing: seq<Taken>)
    requires forall i | 0 <= i < |extras| :: !extras[i].Write?
    requires forall i | 0 <= i < |closing| :: !closing[i].Write?
    ensures WrittenLast(front + Named(tree, "devicetree") + BulkWrites(kernel) + extras + closing, kernel)
  {
    hide BulkWrites, Encoded;
    var writes, name, last := BulkWrites(tree), [Command(0, Encoded("devicetree"))], BulkWrites(kernel);
    Associative(front, writes, name);
    Associative(front + writes, name, last);
    Associative(front + writes + (name + last), extras, closing);
  }

  lemma RecordSpelled(images: Images, extras: seq<Taken>, bootArgs: string)
    requires REQUIRED <= images.Keys && forall i | 0 <= i < |extras| :: !extras[i].Write?
    ensures Spelled(Record(images, extras, bootArgs), images, bootArgs)
  {
    hide BulkWrites, Encoded, Holds, Named, WrittenLast;
    var logo := if Logo !in images then []
                else Named(images[Logo], "setpicture 4") + [Command(0, Encoded("bgcolor 0 0 0"))];
    var a, b := Named(images[TrustCache], "firmware"), Named(images[RamDisk], "ramdisk");
    var c, k := Named(images[DeviceTree], "devicetree"), BulkWrites(images[KernelCache]);
    var closing := [Command(0, Encoded("setenv boot-args " + bootArgs)), Command(1, Encoded("bootx"))];
    NamedIs(images[TrustCache], "firmware");
    NamedIs(images[RamDisk], "ramdisk");
    NamedIs(images[DeviceTree], "devicetree");
    HoldsLast(logo, a);
    HoldsLast(logo + a, b);
    HoldsLast(logo + a + b, c);
    HoldsOn(logo + a, a, b);
    HoldsOn(logo + a + b, a, c);
    HoldsOn(logo + a + b, b, c);
    if Logo in images {
      var picture := Named(images[Logo], "setpicture 4");
      NamedIs(images[Logo], "setpicture 4");
      HoldsLast([], picture);
      assert [] + picture == picture;
      HoldsOn(picture, picture, [Command(0, Encoded("bgcolor 0 0 0"))]);
      StillHolds(logo, a, b, c, picture);
      HoldsToTheEnd(logo + a + b + c, k, extras, closing, picture);
    }
    HoldsToTheEnd(logo + a + b + c, k, extras, closing, a);
    HoldsToTheEnd(logo + a + b + c, k, extras, closing, b);
    HoldsToTheEnd(logo + a + b + c, k, extras, closing, c);
    KernelLast(logo + a + b, images[DeviceTree], images[KernelCache], extras, closing);
    EndsWith(logo + a + b + c + k + extras, closing);
  }

  lemma NamedIs(image: Buffer, text: string)
    ensures Named(image, text) == BulkWrites(image) + [Command(0, Encoded(text))]
  {
  }

  lemma StillHolds(logo: seq<Taken>, a: seq<Taken>, b: seq<Taken>, c: seq<Taken>, part: seq<Taken>)
    requires Holds(logo, part)
    ensures Holds(logo + a + b + c, part)
  {
    hide Holds;
    HoldsOn(logo, part, a);
    HoldsOn(logo + a, part, b);
    HoldsOn(logo + a + b, part, c);
  }

  lemma HoldsToTheEnd(record: seq<Taken>, k: seq<Taken>, extras: seq<Taken>, closing: seq<Taken>, part: seq<Taken>)
    requires Holds(record, part)
    ensures Holds(record + k + extras + closing, part)
  {
    hide Holds;
    HoldsOn(record, part, k);
    HoldsOn(record + k, part, extras);
    HoldsOn(record + k + extras, part, closing);
  }

  lemma EndsWith(front: seq<Taken>, closing: seq<Taken>)
    requires |closing| == 2
    ensures |front + closing| >= 2 && (front + closing)[|front + closing| - 2..] == closing
  {
  }

  lemma {:induction false} EffectsAppend(a: seq<Step>, b: seq<Step>)
    ensures Effects(a + b) == Effects(a) + Effects(b)
    decreases |b|
  {
    hide Effect;
    if b == [] {
      assert a + b == a;
    } else {
      var n := |b| - 1;
      EffectsAppend(a, b[..n]);
      assert (a + b)[..|a| + n] == a + b[..n] && (a + b)[|a| + n] == b[n];
      Associative(Effects(a), Effects(b[..n]), Effect(b[n]));
    }
  }

  lemma Associative(a: seq<Taken>, b: seq<Taken>, c: seq<Taken>)
    ensures (a + b) + c == a + (b + c)
  {
  }

  /** What a whole plan leaves is the record of its images, its extra commands and its boot arguments. */
  lemma PlanRecord(images: Images, said: seq<Step>, bootArgs: string)
    requires REQUIRED <= images.Keys
    ensures Effects(Opening(images) + said + Closing(bootArgs)) == Record(images, Effects(said), bootArgs)
  {
    hide Effects, Effect, Named, Closing;
    var logo := if Logo in images then [Upload(images[Logo]), Say("setpicture 4", 0), Say("bgcolor 0 0 0", 0)] else [];
    LogoEffects(images);
    var a, b := [Upload(images[TrustCache]), Say("firmware", 0)], [Upload(images[RamDisk]), Say("ramdisk", 0)];
    var c, k := [Upload(images[DeviceTree]), Say("devicetree", 0)], [Upload(images[KernelCache])];
    assert Opening(images) == logo + a + b + c + k;
    NamedEffects(logo, images[TrustCache], "firmware");
    NamedEffects(logo + a, images[RamDisk], "ramdisk");
    NamedEffects(logo + a + b, images[DeviceTree], "devicetree");
    EffectsAppend(logo + a + b + c, k);
    OneEffect(Upload(images[KernelCache]));
    EffectsAppend(Opening(images), said);
    EffectsAppend(Opening(images) + said, Closing(bootArgs));
    ClosingEffects(bootArgs);
  }

  lemma OneEffect(step: Step)
    ensures Effects([step]) == Effect(step) && Effects([]) == []
    ensures step.Upload? ==> Effect(step) == BulkWrites(step.image)
    ensures step.Say? ==> Effect(step) == [Command(step.request, Encoded(step.text))]
  {
    hide BulkWrites, Encoded;
    assert [step][..0] == [];
  }

  lemma NamedEffects(front: seq<Step>, image: Buffer, text: string)
    ensures Effects(front + [Upload(image), Say(text, 0)]) == Effects(front) + Named(image, text)
  {
    hide Effects, Effect, BulkWrites, Encoded;
    assert [Upload(image), Say(text, 0)] == [Upload(image)] + [Say(text, 0)];
    EffectsAppend([Upload(image)], [Say(text, 0)]);
    OneEffect(Upload(image));
    OneEffect(Say(text, 0));
    EffectsAppend(front, [Upload(image), Say(text, 0)]);
  }

  lemma LogoEffects(images: Images)
    ensures Logo in images ==>
              Effects([Upload(images[Logo]), Say("setpicture 4", 0), Say("bgcolor 0 0 0", 0)])
              == Named(images[Logo], "setpicture 4") + [Command(0, Encoded("bgcolor 0 0 0"))]
    ensures Effects([]) == []
  {
    hide Effects, Effect, BulkWrites, Encoded, Named;
    OneEffect(Say("bgcolor 0 0 0", 0));
    if Logo in images {
      var pair := [Upload(images[Logo]), Say("setpicture 4", 0)];
      NamedEffects([], images[Logo], "setpicture 4");
      assert [] + pair == pair && [] + Named(images[Logo], "setpicture 4") == Named(images[Logo], "setpicture 4");
      EffectsAppend(pair, [Say("bgcolor 0 0 0", 0)]);
      assert pair + [Say("bgcolor 0 0 0", 0)]
          == [Upload(images[Logo]), Say("setpicture 4", 0), Say("bgcolor 0 0 0", 0)];
    }
  }

  lemma ClosingEffects(bootArgs: string)
    ensures Effects(Closing(bootArgs))
            == [Command(0, Encoded("setenv boot-args " + bootArgs)), Command(1, Encoded("bootx"))]
  {
    hide Effects, Effect, Encoded;
    var first, last := Say("setenv boot-args " + bootArgs, 0), Say("bootx", 1);
    OneEffect(first);
    OneEffect(last);
    EffectsAppend([first], [last]);
    assert [first] + [last] == Closing(bootArgs);
  }

  /** An answered extra command writes nothing to the bulk endpoint. */
  lemma {:induction false} SaidWritesNothing(said: seq<Step>, refused: seq<Taken>, extras: seq<string>)
    requires Answered(said, refused, extras)
    ensures forall i | 0 <= i < |Effects(said)| :: !Effects(said)[i].Write?
    decreases |extras|
  {
    hide Encoded, BulkWrites;
    if extras != [] {
      var n := |extras| - 1;
      if said != [] && said[|said| - 1] == Say(extras[n], 0) && Answered(said[..|said| - 1], refused, extras[..n]) {
        SaidWritesNothing(said[..|said| - 1], refused, extras[..n]);
      } else {
        SaidWritesNothing(said, refused[..|refused| - 1], extras[..n]);
      }
    }
  }

  // The run.

  datatype RestoreReport = RestoreReport(sequenceSent: bool, bootxAcknowledged: bool, intact: bool)

  /** Step k of a plan whose first k steps the device has taken. */
  method Perform(host: Host, step: Step, sha: Buffer -> string, remaining: int,
                 ghost before: seq<Taken>, ghost plan: seq<Step>, ghost k: nat)
    returns (ok: bool)
    requires host.Ready() && k < |plan| && plan[k] == step
    requires host.bridge.device.restore == before + Effects(plan[..k])
    modifies host`deadline, host.bridge
    ensures old(host.bridge.device.restore) <= host.bridge.device.restore
            <= old(host.bridge.device.restore) + Effect(step)
    ensures before <= host.bridge.device.restore <= before + Effects(plan)
    ensures old(host.bridge.device).refused <= host.bridge.device.refused
    ensures host.bridge.device.DownloadsKept(old(host.bridge.device))
    ensures ok ==>
              && host.Ready() && host.bridge.device.restore == before + Effects(plan[..k + 1])
              && host.bridge.device.refused == old(host.bridge.device).refused
  {
    hide BulkWrites, Encoded, Effects;
    StepOfPlan(before, plan, k);
    match step
    case Upload(image) =>
      var complete, sent, raised := host.SendRecoveryFile(image, Some(sha(image)), sha, remaining);
      ok := complete;
    case Say(text, request) =>
      var answer := host.SendCommand(text, request);
      ok := answer.Done?;
  }

  lemma StepOfPlan(before: seq<Taken>, plan: seq<Step>, k: nat)
    requires k < |plan|
    ensures before + Effects(plan[..k + 1]) == (before + Effects(plan[..k])) + Effect(plan[k])
    ensures before + Effects(plan[..k + 1]) <= before + Effects(plan)
  {
    hide Effects, Effect;
    LastStep(plan, k);
    Associative(before, Effects(plan[..k]), Effect(plan[k]));
    EffectsOfFront(plan, k + 1);
    PrefixOfSum(before, Effects(plan[..k + 1]), Effects(plan[k + 1..]), Effects(plan));
  }

  lemma EffectsOfFront(plan: seq<Step>, k: nat)
    requires k <= |plan|
    ensures Effects(plan) == Effects(plan[..k]) + Effects(plan[k..])
  {
    hide Effects;
    EffectsAppend(plan[..k], plan[k..]);
    assert plan[..k] + plan[k..] == plan;
  }

  lemma PrefixOfSum(before: seq<Taken>, a: seq<Taken>, b: seq<Taken>, whole: seq<Taken>)
    requires whole == a + b
    ensures before + a <= before + whole
  {
  }

  lemma LastStep(plan: seq<Step>, k: nat)
    requires k < |plan|
    ensures Effects(plan[..k + 1]) == Effects(plan[..k]) + Effect(plan[k])
  {
    hide Effect;
    assert plan[..k + 1][..k] == plan[..k];
  }

  /** The uploads and the commands that name them, in order, up to the first failure. */
  method PerformAll(host: Host, plan: seq<Step>, sha: Buffer -> string, remaining: int) returns (ok: bool)
    requires host.Ready()
    modifies host`deadline, host.bridge
    ensures old(host.bridge.device.restore) <= host.bridge.device.restore
            <= old(host.bridge.device.restore) + Effects(plan)
    ensures old(host.bridge.device).refused <= host.bridge.device.refused
    ensures host.bridge.device.DownloadsKept(old(host.bridge.device))
    ensures ok ==>
              && host.Ready() && host.bridge.device.restore == old(host.bridge.device.restore) + Effects(plan)
              && host.bridge.device.refused == old(host.bridge.device).refused
  {
    hide Effect;
    ghost var before := host.bridge.device.restore;
    ok := true;
    for k := 0 to |plan|
      invariant host.Ready() && ok && host.bridge.device.refused == old(host.bridge.device).refused
      invariant host.bridge.device.DownloadsKept(old(host.bridge.device))
      invariant host.bridge.device.restore == before + Effects(plan[..k])
    {
      ok := Perform(host, plan[k], sha, remaining, before, plan, k);
      if !ok {
        return;
      }
    }
    assert plan[..|plan|] == plan;
  }

  /** [A-Za-z][A-Za-z0-9 _=.+-]* */
  predicate ExtraOk(text: string) {
    && text != [] && ('A' <= text[0] <= 'Z' || 'a' <= text[0] <= 'z')
    && forall i | 0 <= i < |text| ::
         'A' <= text[i] <= 'Z' || 'a' <= text[i] <= 'z' || '0' <= text[i] <= '9'
         || text[i] in {' ', '_', '=', '.', '+', '-'}
  }

  /** The same, by the codes of the characters: a letter, then letters, digits, blanks and five signs. */
  predicate Plain(text: string) {
    && text != "" && (65 <= text[0] as int <= 90 || 97 <= text[0] as int <= 122)
    && forall c | c in text ::
         48 <= c as int <= 57 || 65 <= c as int <= 90 || 97 <= c as int <= 122
         || c as int in {32, 43, 45, 46, 61, 95}
  }

  lemma ExtraMeans(text: string)
    ensures ExtraOk(text) <==> Plain(text)
  {
    if ExtraOk(text) {
      forall c | c in text
        ensures 48 <= c as int <= 57 || 65 <= c as int <= 90 || 97 <= c as int <= 122
                || c as int in {32, 43, 45, 46, 61, 95}
      {
        var i :| 0 <= i < |text| && text[i] == c;
      }
    }
    if Plain(text) {
      forall i | 0 <= i < |text|
        ensures 'A' <= text[i] <= 'Z' || 'a' <= text[i] <= 'z' || '0' <= text[i] <= '9'
                || text[i] in {' ', '_', '=', '.', '+', '-'}
      {
        assert text[i] in text;
      }
    }
  }

  /**
   * The extra commands: what the guest refuses is recorded and passed over, any other failure ends
   * the run. Up to there each of them was taken or refused, in their order.
   */
  method SendExtras(host: Host, extras: seq<string>)
    returns (ok: bool, ghost said: seq<Step>, ghost refused: seq<Taken>, ghost asked: nat)
    requires host.Ready()
    modifies host`deadline, host.bridge
    ensures asked <= |extras| && Answered(said, refused, extras[..asked])
    ensures forall i | 0 <= i < asked :: Plain(extras[i])
    ensures host.bridge.device.restore == old(host.bridge.device.restore) + Effects(said)
    ensures host.bridge.device.refused == old(host.bridge.device).refused + refused
    ensures host.bridge.device.DownloadsKept(old(host.bridge.device))
    ensures ok ==> host.Ready() && asked == |extras|
  {
    hide Encoded, Answered, Effects, ExtraOk, Plain;
    said, refused, ok, asked := [], [], true, 0;
    NothingSaid();
    ghost var before, refusals := host.bridge.device.restore, host.bridge.device.refused;
    for i := 0 to |extras|
      invariant host.Ready() && ok && asked == i && Answered(said, refused, extras[..i])
      invariant forall k | 0 <= k < i :: Plain(extras[k])
      invariant host.bridge.device.restore == before + Effects(said)
      invariant host.bridge.device.refused == refusals + refused
      invariant host.bridge.device.DownloadsKept(old(host.bridge.device))
    {
      if !ExtraOk(extras[i]) {
        return false, said, refused, asked;
      }
      ExtraMeans(extras[i]);
      ghost var taken, denied := host.bridge.device.restore, host.bridge.device.refused;
      var answer := host.SendCommand(extras[i], 0);
      OneMoreAnswer(said, refused, extras, i);
      ghost var command := Command(0, Encoded(extras[i]));
      if host.bridge.device.restore != taken {
        Associative(before, Effects(said), [command]);
        said, asked := said + [Say(extras[i], 0)], i + 1;
      } else if host.bridge.device.refused != denied {
        Associative(refusals, refused, [command]);
        refused, asked := refused + [command], i + 1;
      }
      if answer.Failed? && answer.kind !in {Protocol, Stall} {
        return false, said, refused, asked;
      }
    }
    assert extras[..|extras|] == extras;
  }

  lemma NothingSaid()
    ensures Answered([], [], []) && Effects([]) == []
  {
  }

  lemma OneMoreAnswer(said: seq<Step>, refused: seq<Taken>, extras: seq<string>, i: nat)
    requires i < |extras| && Answered(said, refused, extras[..i])
    ensures var more := said + [Say(extras[i], 0)];
            && Answered(more, refused, extras[..i + 1])
            && Effects(more) == Effects(said) + [Command(0, Encoded(extras[i]))]
    ensures Answered(said, refused + [Command(0, Encoded(extras[i]))], extras[..i + 1])
  {
    assert extras[..i + 1][..i] == extras[..i];
    assert (said + [Say(extras[i], 0)])[..|said|] == said;
    assert (refused + [Command(0, Encoded(extras[i]))])[..|refused|] == refused;
  }

  /**
   * A whole run. Whatever fails, and wherever, the device has taken a first part of the sequence:
   * the images in their envelopes, each followed by its command, then the extra commands it did not
   * refuse, the boot arguments, and bootx last. A report that the sequence was sent means it took
   * all of it, refused nothing but extra commands, each of which it took or refused, and that the
   * inputs are what they were; the acknowledged bootx alone means all but the last. Between the
   * kernel and the extra commands one empty download went out as a notification, taken or stalled.
   */
  method RunRestore(host: Host, sources: Images, digests: Images, hash: Hash, ticket: Buffer,
                    extras: seq<string>, bootArgs: string, sha: Buffer -> string, remaining: int)
    returns (report: RestoreReport, raised: bool, ghost images: Images, ghost said: seq<Step>,
             ghost refused: seq<Taken>, ghost asked: nat)
    requires host.Ready()
    modifies host`deadline, host.bridge
    ensures REQUIRED <= images.Keys
    ensures asked <= |extras| && Answered(said, refused, extras[..asked])
    ensures forall i | 0 <= i < asked :: Plain(extras[i])
    ensures var whole := Record(images, Effects(said), bootArgs);
            && old(host.bridge.device.restore) <= host.bridge.device.restore
               <= old(host.bridge.device.restore) + whole
            && (report.bootxAcknowledged ==>
                  host.bridge.device.restore == old(host.bridge.device.restore) + whole)
            && Spelled(whole, images, bootArgs)
    ensures report.bootxAcknowledged ==> Notified(old(host.bridge.device), host.bridge.device)
    ensures old(host.bridge.device).refused <= host.bridge.device.refused
    ensures report.bootxAcknowledged ==>
              asked == |extras| && host.bridge.device.refused == old(host.bridge.device).refused + refused
    ensures report.sequenceSent <==> report.bootxAcknowledged && report.intact
    ensures raised <==> !report.sequenceSent
    ensures host.bridge.device.restore != old(host.bridge.device.restore) ==>
              && images.Keys == sources.Keys <= digests.Keys
              && forall role | role in sources ::
                   Prepared(sources[role], role, digests[role], hash, ticket) == Ok(images[role])
  {
    hide Prepared, Effects, Effect, Opening, Closing, Answered, Encoded, Introduces, Record, Spelled, Plain;
    ghost var before := host.bridge.device.restore;
    report, raised := RestoreReport(false, false, false), true;
    images, said, refused, asked := map role | role in REQUIRED :: [], [], [], 0;
    NothingSaid();
    SpelledOut(before, images, said, refused, [], bootArgs);
    if !(REQUIRED <= sources.Keys) {
      return;
    }
    var prepared := Prepare(sources, digests, hash, ticket);
    if prepared.Err? {
      return;
    }
    images := prepared.value;
    SpelledOut(before, images, said, refused, [], bootArgs);
    var configured := host.ConfigureRecovery();
    if configured.Failed? {
      return;
    }
    var sent;
    sent, said, refused, asked := Send(host, prepared.value, extras, bootArgs, sha, remaining);
    SpelledOut(before, images, said, refused, extras[..asked], bootArgs);
    var intact := *;
    report := RestoreReport(sent && intact, sent, intact);
    raised := !report.sequenceSent;
  }

  method Send(host: Host, images: Images, extras: seq<string>, bootArgs: string, sha: Buffer -> string, remaining: int)
    returns (sent: bool, ghost said: seq<Step>, ghost refused: seq<Taken>, ghost asked: nat)
    requires host.Ready() && REQUIRED <= images.Keys
    modifies host`deadline, host.bridge
    ensures asked <= |extras| && Answered(said, refused, extras[..asked])
    ensures forall i | 0 <= i < asked :: Plain(extras[i])
    ensures var plan := Opening(images) + said + Closing(bootArgs);
            && old(host.bridge.device.restore) <= host.bridge.device.restore
               <= old(host.bridge.device.restore) + Effects(plan)
            && (sent ==> host.bridge.device.restore == old(host.bridge.device.restore) + Effects(plan))
    ensures old(host.bridge.device).refused <= host.bridge.device.refused
    ensures sent ==> asked == |extras| && host.bridge.device.refused == old(host.bridge.device).refused + refused
    ensures sent ==> Notified(old(host.bridge.device), host.bridge.device)
  {
    hide Effects, Effect, Opening, Closing, Answered, Encoded, Plain;
    ghost var before := host.bridge.device.restore;
    said, refused, asked := [], [], 0;
    NothingSaid();
    PlanPrefix(before, Opening(images), said, Closing(bootArgs));
    sent := PerformAll(host, Opening(images), sha, remaining);
    if !sent {
      return;
    }
    var notified := Notify(host);
    if notified.Failed? && notified.kind != Stall {
      return false, said, refused, asked;
    }
    var passed;
    passed, said, refused, asked := SendExtras(host, extras);
    PlanPrefix(before, Opening(images), said, Closing(bootArgs));
    if !passed {
      return false, said, refused, asked;
    }
    sent := PerformAll(host, Closing(bootArgs), sha, remaining);
  }

  /** The device has been sent one empty download and has taken it or stalled it. */
  predicate Notified(before: Device, after: Device) {
    || (after.log == before.log + [Block(0, [])] && after.stalled == before.stalled)
    || (after.stalled == before.stalled + [Block(0, [])] && after.log == before.log)
  }

  /** The record of a plan so far, spelled out. */
  lemma SpelledOut(before: seq<Taken>, images: Images, said: seq<Step>, refused: seq<Taken>, extras: seq<string>,
                   bootArgs: string)
    requires REQUIRED <= images.Keys && Answered(said, refused, extras)
    ensures Effects(Opening(images) + said + Closing(bootArgs)) == Record(images, Effects(said), bootArgs)
    ensures before <= before + Record(images, Effects(said), bootArgs)
    ensures Spelled(Record(images, Effects(said), bootArgs), images, bootArgs)
  {
    hide Effects, Opening, Closing, Answered, Record, Spelled;
    PlanRecord(images, said, bootArgs);
    SaidWritesNothing(said, refused, extras);
    RecordSpelled(images, Effects(said), bootArgs);
  }

  /** The notification before the extra commands; the recovery mode takes and refuses nothing by it. */
  method Notify(host: Host) returns (r: Answer<Buffer>)
    requires host.Ready()
    modifies host`deadline, host.bridge
    ensures host.bridge.device.restore == old(host.bridge.device).restore
    ensures host.bridge.device.refused == old(host.bridge.device).refused
    ensures r.Done? || r.kind == Stall ==> host.Ready() && Notified(old(host.bridge.device), host.bridge.device)
  {
    r := host.Control(Request(0x21, 1, 0, 0, 0), [], None);
  }

  lemma PlanPrefix(before: seq<Taken>, opening: seq<Step>, said: seq<Step>, closing: seq<Step>)
    ensures Effects(opening + said + closing) == Effects(opening) + Effects(said) + Effects(closing)
    ensures before <= before + Effects(opening) <= before + Effects(opening + said + closing)
    ensures (before + Effects(opening)) + Effects(said) <= before + Effects(opening + said + closing)
    ensures ((before + Effects(opening)) + Effects(said)) + Effects(closing)
            == before + Effects(opening + said + closing)
  {
    hide Effects;
    EffectsAppend(opening, said);
    EffectsAppend(opening + said, closing);
    var a, b, c := Effects(opening), Effects(said), Effects(closing);
    Associative(before, a, b);
    Associative(before, a + b, c);
    Associative(before + a, b, c);
    Associative(before, a, b + c);
    Associative(a, b, c);
  }
}
