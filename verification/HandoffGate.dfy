/** The causal boot-chain contract over a run report, and the gate that applies it. */
module HandoffGate {
  import opened Bytes

  /** The names the contract and the gate use in a report; every other name is Other. */
  datatype Key =
    | MachineType | GuestOs | TargetMajor | DirectBoot | ObservationKey | ObservedMarkers | Requested | Selection
    | DfuEntered | Transition | DfuUpload | RecoveryKey | Stage2 | RestoreChain | RecoveryInputsRequired
    | DfuTransferComplete | TransferComplete | TransitionState | State | IbecExecuted | Stage2Observed | Observed
    | ExecutionObserved | RestoreChainCompleted | SequenceSent | BootxAcknowledged | InputIntegrity | ValidKey
    | XnuExecuted | UserspaceReached | KernelMajor | TargetMatch | SignatureClaim | SignatureEvidence
    | AcceptedByGuest | MethodKey | SourceKey | RuntimeStarted | NativeRuntimeStarted | TcgRuntimeStarted
    | Xnu | Userspace | MarkerKey | ByteOffset
    | BootVerified | HandoffKey | FullChain | HandoffBlockers
    | BootChainEvidence | IbootToXnu | XnuToUserspace | Claims | ErrorKey | Blockers
    | Other(name: string)

  datatype Json =
    | Null
    | Bool(b: bool)
    | Int(i: int)
    | Real(r: real)
    | Str(s: string)
    | List(items: seq<Json>)
    | Object(fields: Fields)

  type Fields = map<Key, Json>

  /** dict.get(key): what is absent reads as None. */
  function Get(m: Fields, k: Key): Json { if k in m then m[k] else Null }

  /** Anything but an object reads as an empty one. */
  function Mapping(v: Json): Fields { if v.Object? then v.fields else map[] }

  predicate IsTrue(v: Json) { v == Bool(true) }

  /** v == n for an integer n, as Python compares numbers. */
  predicate EqualsInt(v: Json, n: int) { v == Int(n) || (v.Real? && v.r == n as real) }

  const XNU_NAMES: seq<string> := ["Darwin Kernel Version", "Darwin Kernel"]
  const USERSPACE_NAMES: seq<string> := ["launchd:", "launchd ", "loginwindow", "WindowServer"]

  // Marker entries.

  /** An accepted marker name with a valid offset. */
  predicate ValidEntry(entry: Json, names: seq<string>) {
    && entry.Object? && Get(entry.fields, MarkerKey).Str? && Get(entry.fields, MarkerKey).s in names
    && Get(entry.fields, ByteOffset).Int? && Get(entry.fields, ByteOffset).i >= 0
  }

  function Entries(observation: Fields, category: Key): seq<Json> {
    var list := Get(Mapping(Get(observation, ObservedMarkers)), category);
    if list.List? then list.items else []
  }

  function MarkerPresent(observation: Fields, category: Key, names: seq<string>): bool {
    exists i | 0 <= i < |Entries(observation, category)| :: ValidEntry(Entries(observation, category)[i], names)
  }

  function LeastOffset(entries: seq<Json>, names: seq<string>): Option<int> {
    if entries == [] then None
    else
      var rest := LeastOffset(entries[1..], names);
      if !ValidEntry(entries[0], names) then rest
      else
        var offset := Get(entries[0].fields, ByteOffset).i;
        if rest.Some? && rest.value < offset then rest else Some(offset)
  }

  /**
   * The search for the first offset looks a marker up in a set without asking for a string first:
   * a list or an object there raises a TypeError.
   */
  predicate Unhashable(observation: Fields, category: Key) {
    exists i | 0 <= i < |Entries(observation, category)| ::
      var entry := Entries(observation, category)[i];
      entry.Object? && (Get(entry.fields, MarkerKey).List? || Get(entry.fields, MarkerKey).Object?)
  }

  /** The observation a report carries: with its direct boot, at the top, or the report itself. */
  function Observation(report: Fields): Fields {
    var direct := Mapping(Get(Mapping(Get(report, DirectBoot)), ObservationKey));
    var top := Mapping(Get(report, ObservationKey));
    if direct != map[] then direct
    else if top != map[] then top
    else if Get(report, ObservedMarkers).Object? then report
    else map[]
  }

  // The stages.

  datatype StageId = DirectEntry | IbssDfu | IbecStage2 | RestoreRoles | XnuEntry | MacosUserspace
  datatype Status = Verified | Blocked | NotObserved
  datatype Stage = Stage(id: StageId, status: Status)

  datatype Handoff = Handoff(
    target: Option<int>, direct: bool, stages: seq<Stage>,
    signature: bool, xnu: bool, userspace: bool, boot: bool, inputs: bool, runtime: bool)

  datatype Outcome = Returns(handoff: Handoff) | ContractError | TypeError

  function MakeStage(id: StageId, passed: bool): Stage { Stage(id, if passed then Verified else Blocked) }

  predicate AllVerified(stages: seq<Stage>) {
    forall i | 0 <= i < |stages| :: stages[i].status == Verified
  }

  predicate DirectMode(report: Fields) {
    var direct := Mapping(Get(report, DirectBoot));
    IsTrue(Get(direct, Requested)) && Get(direct, Selection) == Str("macos")
  }

  /** The DFU transfer of the recovery path: called for, and reported as finished. */
  predicate DfuRequired(report: Fields) {
    var recovery := Mapping(Get(report, RecoveryKey));
    IsTrue(Get(report, RecoveryInputsRequired)) || IsTrue(Get(recovery, RecoveryInputsRequired))
    || IsTrue(Get(recovery, DfuTransferComplete))
  }

  predicate DfuComplete(report: Fields) {
    IsTrue(Get(Mapping(Get(report, DfuUpload)), TransferComplete))
    || IsTrue(Get(Mapping(Get(report, RecoveryKey)), DfuTransferComplete))
  }

  predicate IbecReady(report: Fields) {
    var state := Get(Mapping(Get(report, Transition)), State);
    (if state.Str? then state else Get(Mapping(Get(report, RecoveryKey)), TransitionState)) == Str("ibec-ready")
  }

  function EntryStages(report: Fields, require: bool): seq<Stage> {
    var direct := Mapping(Get(report, DirectBoot));
    var stage2, restore := Mapping(Get(report, Stage2)), Mapping(Get(report, RestoreChain));
    if DirectMode(report) then
      [MakeStage(DirectEntry, Get(direct, DfuEntered) == Bool(false))]
    else
      var executed := IsTrue(Get(report, IbecExecuted)) || IsTrue(Get(stage2, IbecExecuted));
      var observed := IsTrue(Get(report, Stage2Observed)) || IsTrue(Get(stage2, Observed))
                      || IsTrue(Get(stage2, ExecutionObserved));
      var restored := IsTrue(Get(report, RestoreChainCompleted))
                      || (IsTrue(Get(restore, SequenceSent)) && IsTrue(Get(restore, BootxAcknowledged))
                          && IsTrue(Get(restore, InputIntegrity)));
      [MakeStage(IbssDfu, DfuRequired(report) && (IbecReady(report) || DfuComplete(report))),
       MakeStage(IbecStage2, executed && observed),
       if restore == map[] && !require then Stage(RestoreRoles, NotObserved) else MakeStage(RestoreRoles, restored)]
  }

  /** The machine and the guest are unnamed or the expected ones. */
  predicate InScope(report: Fields) {
    && Get(report, MachineType) in {Null, Str("iBoot(AArch64)")}
    && Get(report, GuestOs) in {Null, Str("macOS")}
  }

  /** The target the contract is checked for; None when the request or the report contradicts it. */
  function Target(report: Fields, expected: Option<int>): Option<Option<int>> {
    var named := if Get(report, TargetMajor).Int? then Some(Get(report, TargetMajor).i) else None;
    if expected.Some? && (expected.value !in {26, 27} || (named.Some? && named != expected)) then None
    else
      var target := if expected.Some? then expected else named;
      if target.Some? && target.value !in {26, 27} then None else Some(target)
  }

  predicate InputsOk(report: Fields) {
    IsTrue(Get(report, InputIntegrity)) || IsTrue(Get(Mapping(Get(report, InputIntegrity)), ValidKey))
  }

  predicate RuntimeOk(report: Fields) {
    IsTrue(Get(report, RuntimeStarted)) || IsTrue(Get(report, NativeRuntimeStarted))
    || IsTrue(Get(report, TcgRuntimeStarted))
  }

  predicate SignatureOk(report: Fields) {
    var evidence := Mapping(Get(report, SignatureEvidence));
    && IsTrue(Get(report, SignatureClaim)) && IsTrue(Get(evidence, AcceptedByGuest))
    && Get(evidence, MethodKey).Str? && Get(evidence, SourceKey).Str?
  }

  predicate TargetMatches(observation: Fields, target: Option<int>) {
    && IsTrue(Get(observation, TargetMatch))
    && (target.Some? ==> EqualsInt(Get(observation, KernelMajor), target.value))
  }

  predicate XnuOk(report: Fields) {
    var observation := Observation(report);
    && (IsTrue(Get(report, XnuExecuted)) || IsTrue(Get(observation, XnuExecuted)))
    && MarkerPresent(observation, Xnu, XNU_NAMES)
  }

  predicate UserspaceOk(report: Fields) {
    var observation := Observation(report);
    var xnu := LeastOffset(Entries(observation, Xnu), XNU_NAMES);
    var userspace := LeastOffset(Entries(observation, Userspace), USERSPACE_NAMES);
    && IsTrue(Get(observation, UserspaceReached)) && MarkerPresent(observation, Userspace, USERSPACE_NAMES)
    && xnu.Some? && userspace.Some? && xnu.value <= userspace.value
  }

  /** The whole assessment, before the report's own claim is compared with it. */
  function Assess(report: Fields, expected: Option<int>, require: bool): Outcome {
    var observation := Observation(report);
    if !InScope(report) || Target(report, expected).None? then ContractError
    else if Unhashable(observation, Xnu) || Unhashable(observation, Userspace) then TypeError
    else
      var target := Target(report, expected).value;
      var xnu := XnuOk(report) && TargetMatches(observation, target);
      var userspace := xnu && UserspaceOk(report);
      var stages := EntryStages(report, require) + [MakeStage(XnuEntry, xnu), MakeStage(MacosUserspace, userspace)];
      var boot := userspace && InputsOk(report) && RuntimeOk(report) && AllVerified(stages);
      if IsTrue(Get(report, SignatureClaim)) && !SignatureOk(report) then ContractError
      else
        Returns(Handoff(target, DirectMode(report), stages, SignatureOk(report), xnu, userspace, boot,
                        InputsOk(report), RuntimeOk(report)))
  }

  /** verify_handoff_report: a claim that the evidence does not bear is an error. */
  function VerifyHandoff(report: Fields, expected: Option<int>, require: bool): Outcome {
    var outcome := Assess(report, expected, require);
    if outcome.Returns? && IsTrue(Get(report, BootVerified)) && !outcome.handoff.boot then ContractError else outcome
  }

  // The gate.

  /** What the gate records of the outcome; the wording of the blockers is left out. */
  function Record(outcome: Outcome): Json {
    if outcome.Returns? then
      var h := outcome.handoff;
      Object(map[ValidKey := Bool(true),
                 Claims := Object(map[SignatureClaim := Bool(h.signature), XnuExecuted := Bool(h.xnu),
                                      UserspaceReached := Bool(h.userspace), BootVerified := Bool(h.boot)]),
                 Blockers := BlockerList(h)])
    else
      Object(map[ValidKey := Bool(false), ErrorKey := Str("HandoffContractError"),
                 Claims := Object(map[SignatureClaim := Bool(false), XnuExecuted := Bool(false),
                                      UserspaceReached := Bool(false), BootVerified := Bool(false)])])
  }

  function StageBlockers(stages: seq<Stage>): seq<Json> {
    if stages == [] then []
    else
      var front := StageBlockers(stages[..|stages| - 1]);
      match stages[|stages| - 1].status
      case Blocked => front + [Str("stage")]
      case _ => front
  }

  function BlockerList(h: Handoff): Json {
    List(StageBlockers(h.stages) + (if h.inputs then [] else [Str("input_integrity")])
         + (if h.runtime then [] else [Str("runtime")]) + (if h.signature then [] else [Str("signature")]))
  }

  function GateTarget(report: Fields): Option<int> {
    if Get(report, TargetMajor).Int? then Some(Get(report, TargetMajor).i) else None
  }

  function Bit(report: Fields, outcome: Outcome): bool {
    outcome.Returns? && outcome.handoff.boot && IsTrue(Get(report, InputIntegrity))
  }

  function ChainVerified(report: Fields): bool {
    var chain := Mapping(Get(Mapping(Get(Mapping(Get(report, DirectBoot)), ObservationKey)), BootChainEvidence));
    && IsTrue(Get(chain, IbootToXnu)) && IsTrue(Get(chain, XnuToUserspace)) && IsTrue(Get(chain, XnuExecuted))
    && IsTrue(Get(chain, UserspaceReached)) && IsTrue(Get(chain, TargetMatch))
  }

  /** The report after the gate, when the contract does not raise a TypeError. */
  function Gated(report: Fields): (gated: Fields)
    ensures BootVerified in gated && FullChain in gated && HandoffKey in gated
  {
    var outcome := VerifyHandoff(report, GateTarget(report), false);
    var bit := Bit(report, outcome);
    var written := report[HandoffKey := Record(outcome)][BootVerified := Bool(bit)]
                         [FullChain := Bool(ChainVerified(report))];
    if bit || HandoffBlockers in report then written
    else written[HandoffBlockers := if outcome.Returns? then BlockerList(outcome.handoff) else List([])]
  }

  class Report {
    var fields: Fields

    /** Raises when the contract meets a marker that cannot be looked up; the report is then as it was. */
    method ApplyGate() returns (raised: bool)
      modifies this
      ensures raised <==> VerifyHandoff(old(fields), GateTarget(old(fields)), false) == TypeError
      ensures fields == if raised then old(fields) else Gated(old(fields))
    {
      hide VerifyHandoff, ChainVerified, Record;
      var expected := GateTarget(fields);
      var outcome := VerifyHandoff(fields, expected, false);
      if outcome == TypeError {
        return true;
      }
      ghost var before := fields;
      fields := fields[HandoffKey := Record(outcome)];
      var bit := outcome.Returns? && outcome.handoff.boot && IsTrue(Get(fields, InputIntegrity));
      fields := fields[BootVerified := Bool(bit)];
      Untouched(before, fields);
      fields := fields[FullChain := Bool(ChainVerified(fields))];
      if fields[BootVerified] == Bool(false) && HandoffBlockers !in fields {
        fields := fields[HandoffBlockers := if outcome.Returns? then BlockerList(outcome.handoff) else List([])];
      }
      raised := false;
    }
  }

  // The verdict does not read back what the gate writes.

  const WRITTEN: set<Key> := {HandoffKey, BootVerified, FullChain, HandoffBlockers}

  ghost predicate SameView(a: Fields, b: Fields) {
    forall k :: k !in WRITTEN ==> Get(a, k) == Get(b, k)
  }

  lemma SameObservation(a: Fields, b: Fields)
    requires SameView(a, b)
    ensures SameView(Observation(a), Observation(b))
  {
    assert Get(a, DirectBoot) == Get(b, DirectBoot) && Get(a, ObservationKey) == Get(b, ObservationKey);
    assert Get(a, ObservedMarkers) == Get(b, ObservedMarkers);
  }

  lemma SameEntry(a: Fields, b: Fields, require: bool)
    requires SameView(a, b)
    ensures DirectMode(a) == DirectMode(b) && EntryStages(a, require) == EntryStages(b, require)
  {
    assert Get(a, DirectBoot) == Get(b, DirectBoot) && Get(a, RecoveryKey) == Get(b, RecoveryKey);
    assert Get(a, DfuUpload) == Get(b, DfuUpload) && Get(a, Transition) == Get(b, Transition);
    assert Get(a, Stage2) == Get(b, Stage2) && Get(a, RestoreChain) == Get(b, RestoreChain);
    assert Get(a, RecoveryInputsRequired) == Get(b, RecoveryInputsRequired);
    assert Get(a, IbecExecuted) == Get(b, IbecExecuted) && Get(a, Stage2Observed) == Get(b, Stage2Observed);
    assert Get(a, RestoreChainCompleted) == Get(b, RestoreChainCompleted);
  }

  lemma SameTarget(a: Fields, b: Fields, expected: Option<int>)
    requires SameView(a, b)
    ensures InScope(a) == InScope(b) && Target(a, expected) == Target(b, expected) && GateTarget(a) == GateTarget(b)
  {
    assert Get(a, MachineType) == Get(b, MachineType) && Get(a, GuestOs) == Get(b, GuestOs);
    assert Get(a, TargetMajor) == Get(b, TargetMajor);
  }

  lemma SameConditions(a: Fields, b: Fields)
    requires SameView(a, b)
    ensures InputsOk(a) == InputsOk(b) && RuntimeOk(a) == RuntimeOk(b) && SignatureOk(a) == SignatureOk(b)
    ensures Get(a, SignatureClaim) == Get(b, SignatureClaim) && Get(a, InputIntegrity) == Get(b, InputIntegrity)
  {
    assert Get(a, RuntimeStarted) == Get(b, RuntimeStarted);
    assert Get(a, NativeRuntimeStarted) == Get(b, NativeRuntimeStarted);
    assert Get(a, TcgRuntimeStarted) == Get(b, TcgRuntimeStarted);
    assert Get(a, SignatureEvidence) == Get(b, SignatureEvidence);
  }

  lemma SameMarkers(a: Fields, b: Fields, category: Key)
    requires SameView(a, b)
    ensures Entries(a, category) == Entries(b, category)
  {
    assert Get(a, ObservedMarkers) == Get(b, ObservedMarkers);
  }

  lemma SameEvidence(a: Fields, b: Fields, target: Option<int>)
    requires SameView(a, b)
    ensures XnuOk(a) == XnuOk(b) && UserspaceOk(a) == UserspaceOk(b)
    ensures TargetMatches(Observation(a), target) == TargetMatches(Observation(b), target)
    ensures Unhashable(Observation(a), Xnu) == Unhashable(Observation(b), Xnu)
    ensures Unhashable(Observation(a), Userspace) == Unhashable(Observation(b), Userspace)
  {
    hide Observation, Entries;
    SameObservation(a, b);
    var oa, ob := Observation(a), Observation(b);
    SameMarkers(oa, ob, Xnu);
    SameMarkers(oa, ob, Userspace);
    assert Get(a, XnuExecuted) == Get(b, XnuExecuted) && Get(oa, XnuExecuted) == Get(ob, XnuExecuted);
    assert Get(oa, UserspaceReached) == Get(ob, UserspaceReached) && Get(oa, TargetMatch) == Get(ob, TargetMatch);
    assert Get(oa, KernelMajor) == Get(ob, KernelMajor);
  }

  lemma AssessesTheSame(a: Fields, b: Fields, expected: Option<int>, require: bool)
    requires SameView(a, b)
    ensures Assess(a, expected, require) == Assess(b, expected, require)
  {
    hide SameView, Observation, XnuOk, UserspaceOk, TargetMatches, Unhashable, InScope, Target, EntryStages, DirectMode,
         InputsOk, RuntimeOk, SignatureOk, AllVerified;
    SameTarget(a, b, expected);
    SameEntry(a, b, require);
    SameConditions(a, b);
    SameEvidence(a, b, if Target(a, expected).Some? then Target(a, expected).value else None);
  }

  /** Two writes of the gate that precede its look at the boot chain do not change what it sees there. */
  lemma Untouched(before: Fields, after: Fields)
    requires SameView(before, after)
    ensures ChainVerified(after) == ChainVerified(before)
  {
    assert Get(after, DirectBoot) == Get(before, DirectBoot);
  }

  lemma GateKeepsView(report: Fields)
    ensures SameView(report, Gated(report))
    ensures BootVerified in Gated(report)
    ensures Gated(report)[BootVerified] == Bool(Bit(report, VerifyHandoff(report, GateTarget(report), false)))
  {
    hide VerifyHandoff, Record, BlockerList, ChainVerified, Bit, GateTarget;
  }

  /** The verdict of the gate, which is the same whatever the report claimed before. */
  predicate Verdict(report: Fields) {
    var outcome := Assess(report, GateTarget(report), false);
    outcome.Returns? && outcome.handoff.boot && IsTrue(Get(report, InputIntegrity))
  }

  lemma BitIsVerdict(report: Fields)
    ensures Gated(report)[BootVerified] == Bool(Verdict(report))
  {
    hide Assess, Gated;
    GateKeepsView(report);
  }

  /** No earlier claim, and no earlier pass of the gate, has any influence on the bit. */
  lemma BitIgnoresClaims(report: Fields, claim: Json)
    ensures Gated(report[BootVerified := claim])[BootVerified] == Gated(report)[BootVerified]
    ensures Gated(Gated(report))[BootVerified] == Gated(report)[BootVerified]
  {
    hide Assess, Gated;
    var claimed := report[BootVerified := claim];
    BitIsVerdict(report);
    BitIsVerdict(claimed);
    BitIsVerdict(Gated(report));
    GateKeepsView(report);
    SameVerdict(report, claimed);
    SameVerdict(report, Gated(report));
  }

  lemma SameVerdict(a: Fields, b: Fields)
    requires SameView(a, b)
    ensures Verdict(a) == Verdict(b)
  {
    hide Assess;
    AssessesTheSame(a, b, GateTarget(a), false);
    SameTarget(a, b, None);
    SameConditions(a, b);
  }

  // What a verified boot rests on.

  function Offset(entry: Json): int
    requires entry.Object? && Get(entry.fields, ByteOffset).Int?
  {
    Get(entry.fields, ByteOffset).i
  }

  /** The offset of the first valid entry is no later than that of any other. */
  lemma {:induction false} LeastOffsetIsLeast(entries: seq<Json>, names: seq<string>)
    ensures LeastOffset(entries, names).None? <==> forall i | 0 <= i < |entries| :: !ValidEntry(entries[i], names)
    ensures var least := LeastOffset(entries, names);
            least.Some? ==>
              && (exists i | 0 <= i < |entries| :: ValidEntry(entries[i], names) && Offset(entries[i]) == least.value)
              && (forall i | 0 <= i < |entries| && ValidEntry(entries[i], names) :: least.value <= Offset(entries[i]))
    decreases |entries|
  {
    hide ValidEntry;
    if entries != [] {
      var tail := entries[1..];
      LeastOffsetIsLeast(tail, names);
      assert entries[0] == entries[0];
      assert forall i | 0 <= i < |tail| :: tail[i] == entries[i + 1];
      assert forall i | 1 <= i < |entries| :: entries[i] == tail[i - 1];
      ValidHasOffset(entries[0], names);
    }
  }

  lemma ValidHasOffset(entry: Json, names: seq<string>)
    ensures ValidEntry(entry, names) ==> entry.Object? && Get(entry.fields, ByteOffset).Int? && Offset(entry) >= 0
  {
  }

  /** Some valid Darwin entry precedes, or stands with, every valid userspace entry, and there is one of those. */
  predicate OrderedMarkers(observation: Fields) {
    var xnu, userspace := Entries(observation, Xnu), Entries(observation, Userspace);
    && (exists j | 0 <= j < |userspace| :: ValidEntry(userspace[j], USERSPACE_NAMES))
    && exists i | 0 <= i < |xnu| ::
         && ValidEntry(xnu[i], XNU_NAMES)
         && forall j | 0 <= j < |userspace| && ValidEntry(userspace[j], USERSPACE_NAMES) ::
              Offset(xnu[i]) <= Offset(userspace[j])
  }

  lemma OffsetsOrdered(observation: Fields)
    ensures OrderedMarkers(observation) <==>
              var xnu := LeastOffset(Entries(observation, Xnu), XNU_NAMES);
              var userspace := LeastOffset(Entries(observation, Userspace), USERSPACE_NAMES);
              xnu.Some? && userspace.Some? && xnu.value <= userspace.value
  {
    hide ValidEntry, LeastOffset;
    var xnu, userspace := Entries(observation, Xnu), Entries(observation, Userspace);
    LeastOffsetIsLeast(xnu, XNU_NAMES);
    LeastOffsetIsLeast(userspace, USERSPACE_NAMES);
    forall i | 0 <= i < |xnu|
      ensures ValidEntry(xnu[i], XNU_NAMES) ==> xnu[i].Object? && Get(xnu[i].fields, ByteOffset).Int?
    {
      ValidHasOffset(xnu[i], XNU_NAMES);
    }
  }

  // What a report says, in its own keys.

  predicate Said(report: Fields, k: Key) { Get(report, k) == Bool(true) }

  /** The object a report holds under a key. */
  function Part(report: Fields, k: Key): Fields { Mapping(Get(report, k)) }

  predicate ScopeNamed(report: Fields) {
    && Get(report, MachineType) in {Null, Str("iBoot(AArch64)")} && Get(report, GuestOs) in {Null, Str("macOS")}
    && (Get(report, TargetMajor).Int? ==> Get(report, TargetMajor) in {Int(26), Int(27)})
  }

  /** A claimed signature was accepted by the guest, by a method and from a source that are named. */
  predicate SignatureBacked(report: Fields) {
    var evidence := Part(report, SignatureEvidence);
    Said(report, SignatureClaim) ==>
      Said(evidence, AcceptedByGuest) && Get(evidence, MethodKey).Str? && Get(evidence, SourceKey).Str?
  }

  predicate DirectReported(report: Fields) {
    Said(Part(report, DirectBoot), Requested) && Get(Part(report, DirectBoot), Selection) == Str("macos")
  }

  /** The way in: straight into macOS without DFU, or DFU, Stage2 and the restore chain. */
  predicate EntryReported(report: Fields) {
    if DirectReported(report) then Get(Part(report, DirectBoot), DfuEntered) == Bool(false)
    else DfuReported(report) && Stage2Reported(report) && RestoreReported(report)
  }

  /** DFU was called for, and iBEC was ready or the transfer complete. */
  predicate DfuReported(report: Fields) {
    var recovery := Part(report, RecoveryKey);
    var state := Get(Part(report, Transition), State);
    && (Said(report, RecoveryInputsRequired) || Said(recovery, RecoveryInputsRequired)
        || Said(recovery, DfuTransferComplete))
    && (state == Str("ibec-ready") || (!state.Str? && Get(recovery, TransitionState) == Str("ibec-ready"))
        || Said(Part(report, DfuUpload), TransferComplete) || Said(recovery, DfuTransferComplete))
  }

  predicate Stage2Reported(report: Fields) {
    var stage2 := Part(report, Stage2);
    && (Said(report, IbecExecuted) || Said(stage2, IbecExecuted))
    && (Said(report, Stage2Observed) || Said(stage2, Observed) || Said(stage2, ExecutionObserved))
  }

  /** A chain that was not reported at all does not count, whatever is said of its end. */
  predicate RestoreReported(report: Fields) {
    var chain := Part(report, RestoreChain);
    && chain != map[]
    && (Said(report, RestoreChainCompleted)
        || (Said(chain, SequenceSent) && Said(chain, BootxAcknowledged) && Said(chain, InputIntegrity)))
  }

  /** Darwin ran, with a marker of its own, and it is the kernel of the target. */
  predicate XnuReported(report: Fields) {
    var o := Observation(report);
    && (Said(report, XnuExecuted) || Said(o, XnuExecuted)) && MarkerPresent(o, Xnu, XNU_NAMES) && Said(o, TargetMatch)
    && (Get(report, TargetMajor).Int? ==>
          var major := Get(o, KernelMajor);
          major == Get(report, TargetMajor) || major == Real(Get(report, TargetMajor).i as real))
  }

  predicate UserspaceReported(report: Fields) {
    XnuReported(report) && OrderedMarkers(Observation(report)) && Said(Observation(report), UserspaceReached)
  }

  /** What entries count as markers. */
  lemma MarkerNames(entry: Json)
    ensures ValidEntry(entry, XNU_NAMES) <==> MarkerOf(entry, {"Darwin Kernel Version", "Darwin Kernel"})
    ensures ValidEntry(entry, USERSPACE_NAMES)
            <==> MarkerOf(entry, {"launchd:", "launchd ", "loginwindow", "WindowServer"})
  {
  }

  /** An object with one of these names and an offset. */
  ghost predicate MarkerOf(entry: Json, names: set<string>) {
    entry.Object? && exists name, offset: nat | name in names ::
      Get(entry.fields, MarkerKey) == Str(name) && Get(entry.fields, ByteOffset) == Int(offset)
  }

  lemma DfuMeans(report: Fields)
    ensures DfuRequired(report) && (IbecReady(report) || DfuComplete(report)) <==> DfuReported(report)
  {
  }

  lemma EntryStagesMean(report: Fields)
    ensures AllVerified(EntryStages(report, false)) <==> EntryReported(report)
  {
    hide DfuRequired, IbecReady, DfuComplete, DfuReported;
    DfuMeans(report);
    var stages := EntryStages(report, false);
    if DirectReported(report) {
      assert stages[0].status.Verified? == (Get(Part(report, DirectBoot), DfuEntered) == Bool(false));
    } else {
      assert stages[0].status.Verified? == DfuReported(report);
      assert stages[1].status.Verified? == Stage2Reported(report);
      assert stages[2].status.Verified? == RestoreReported(report);
    }
  }

  lemma TargetMeans(report: Fields)
    ensures InScope(report) && Target(report, GateTarget(report)).Some? <==> ScopeNamed(report)
    ensures ScopeNamed(report) ==> Target(report, GateTarget(report)) == Some(GateTarget(report))
    ensures IsTrue(Get(report, SignatureClaim)) && !SignatureOk(report) <==> !SignatureBacked(report)
  {
  }

  lemma EvidenceMeans(report: Fields)
    ensures XnuOk(report) && TargetMatches(Observation(report), GateTarget(report)) <==> XnuReported(report)
    ensures XnuReported(report) && UserspaceOk(report) <==> UserspaceReported(report)
  {
    hide Entries, Observation, LeastOffset, ValidEntry;
    OffsetsOrdered(Observation(report));
  }

  /**
   * The bit after the gate is true exactly when the report's own evidence bears it: ordered Darwin
   * and userspace markers with both observations made, the kernel of the target, inputs that are
   * intact, a runtime that started, the whole way in, and no claim without its evidence.
   */
  lemma BootNeedsEvidence(report: Fields)
    requires !Unhashable(Observation(report), Xnu) && !Unhashable(Observation(report), Userspace)
    ensures Gated(report)[BootVerified] == Bool(true) <==>
              && ScopeNamed(report) && UserspaceReported(report) && EntryReported(report)
              && Said(report, InputIntegrity) && SignatureBacked(report)
              && (exists k | k in {RuntimeStarted, NativeRuntimeStarted, TcgRuntimeStarted} :: Said(report, k))
  {
    hide Gated, EntryStages, Observation, Unhashable, SignatureOk, InScope, Target, ScopeNamed, UserspaceReported;
    hide EntryReported, XnuOk, UserspaceOk, TargetMatches, XnuReported, SignatureBacked, AllVerified;
    BitIsVerdict(report);
    TargetMeans(report);
    EvidenceMeans(report);
    EntryStagesMean(report);
    var xnu := XnuOk(report) && TargetMatches(Observation(report), GateTarget(report));
    TwoMoreStages(EntryStages(report, false), xnu, xnu && UserspaceOk(report));
    RuntimeMeans(report);
  }

  lemma RuntimeMeans(report: Fields)
    ensures RuntimeOk(report)
            <==> exists k | k in {RuntimeStarted, NativeRuntimeStarted, TcgRuntimeStarted} :: Said(report, k)
  {
    assert Said(report, RuntimeStarted) == IsTrue(Get(report, RuntimeStarted));
    assert Said(report, NativeRuntimeStarted) == IsTrue(Get(report, NativeRuntimeStarted));
    assert Said(report, TcgRuntimeStarted) == IsTrue(Get(report, TcgRuntimeStarted));
  }

  /** The evidence for a boot claim; the inputs may be checked in either of the two forms. */
  predicate BootReported(report: Fields) {
    && UserspaceReported(report) && EntryReported(report)
    && (Said(report, InputIntegrity) || Said(Part(report, InputIntegrity), ValidKey))
    && exists k | k in {RuntimeStarted, NativeRuntimeStarted, TcgRuntimeStarted} :: Said(report, k)
  }

  /**
   * The record the gate leaves: valid exactly for a report in scope that claims neither a signature
   * nor a boot its evidence does not bear, and then with the four claims that the evidence does
   * bear; with no claim at all otherwise.
   */
  lemma RecordMeans(report: Fields)
    requires !Unhashable(Observation(report), Xnu) && !Unhashable(Observation(report), Userspace)
    ensures Gated(report)[HandoffKey].Object?
    ensures var record := Part(Gated(report), HandoffKey);
            var valid := Said(record, ValidKey);
            && (valid <==> ScopeNamed(report) && SignatureBacked(report)
                           && (Said(report, BootVerified) ==> BootReported(report)))
            && Part(record, Claims) == map[
                 SignatureClaim := Bool(valid && Said(report, SignatureClaim)),
                 XnuExecuted := Bool(valid && XnuReported(report)),
                 UserspaceReached := Bool(valid && UserspaceReported(report)),
                 BootVerified := Bool(valid && BootReported(report))]
  {
    hide EntryStages, Observation, Unhashable, InScope, Target, ScopeNamed, UserspaceReported, BlockerList;
    hide EntryReported, XnuOk, UserspaceOk, TargetMatches, XnuReported, AllVerified, ChainVerified, Gated, Record;
    GateRecords(report);
    TargetMeans(report);
    EvidenceMeans(report);
    EntryStagesMean(report);
    RuntimeMeans(report);
    InputsMean(report);
    var xnu := XnuOk(report) && TargetMatches(Observation(report), GateTarget(report));
    TwoMoreStages(EntryStages(report, false), xnu, xnu && UserspaceOk(report));
    RecordSays(VerifyHandoff(report, GateTarget(report), false));
  }

  lemma InputsMean(report: Fields)
    ensures InputsOk(report) <==> Said(report, InputIntegrity) || Said(Part(report, InputIntegrity), ValidKey)
  {
  }

  lemma GateRecords(report: Fields)
    ensures Gated(report)[HandoffKey] == Record(VerifyHandoff(report, GateTarget(report), false))
  {
    hide VerifyHandoff, Record, BlockerList, ChainVerified;
  }

  lemma RecordSays(outcome: Outcome)
    ensures Record(outcome).Object?
    ensures Said(Record(outcome).fields, ValidKey) == outcome.Returns?
    ensures Part(Record(outcome).fields, Claims)
         == if outcome.Returns?
            then map[SignatureClaim := Bool(outcome.handoff.signature), XnuExecuted := Bool(outcome.handoff.xnu),
                     UserspaceReached := Bool(outcome.handoff.userspace), BootVerified := Bool(outcome.handoff.boot)]
            else map[SignatureClaim := Bool(false), XnuExecuted := Bool(false), UserspaceReached := Bool(false),
                     BootVerified := Bool(false)]
    ensures outcome.Returns? ==> Get(Record(outcome).fields, Blockers) == BlockerList(outcome.handoff)
  {
    hide BlockerList;
  }

  /** A stage of the way in that was looked for and not found. */
  predicate EntryMissing(report: Fields) {
    if DirectReported(report) then !EntryReported(report)
    else
      !DfuReported(report) || !Stage2Reported(report)
      || (Part(report, RestoreChain) != map[] && !RestoreReported(report))
  }

  lemma {:induction false} StageBlockersMean(stages: seq<Stage>)
    ensures forall b | b in StageBlockers(stages) :: b == Str("stage")
    ensures Str("stage") in StageBlockers(stages) <==> exists i | 0 <= i < |stages| :: stages[i].status == Blocked
    decreases |stages|
  {
    if stages != [] {
      var front := stages[..|stages| - 1];
      StageBlockersMean(front);
      assert forall i | 0 <= i < |front| :: stages[i] == front[i];
      assert stages[|stages| - 1] == stages[|stages| - 1];
    }
  }

  lemma EntryBlocked(report: Fields)
    ensures (exists i | 0 <= i < |EntryStages(report, false)| :: EntryStages(report, false)[i].status == Blocked)
            <==> EntryMissing(report)
  {
    hide DfuRequired, IbecReady, DfuComplete, DfuReported;
    DfuMeans(report);
    var stages := EntryStages(report, false);
    if DirectReported(report) {
      assert stages[0].status.Blocked? == !EntryReported(report);
    } else {
      assert stages[0].status.Blocked? == !DfuReported(report);
      assert stages[1].status.Blocked? == !Stage2Reported(report);
      assert stages[2].status.Blocked? == (Part(report, RestoreChain) != map[] && !RestoreReported(report));
    }
  }

  lemma TwoMoreBlocked(stages: seq<Stage>, xnu: bool, userspace: bool)
    ensures var all := stages + [MakeStage(XnuEntry, xnu), MakeStage(MacosUserspace, userspace)];
            (exists i | 0 <= i < |all| :: all[i].status == Blocked)
            <==> (exists i | 0 <= i < |stages| :: stages[i].status == Blocked) || !xnu || !userspace
  {
    var all := stages + [MakeStage(XnuEntry, xnu), MakeStage(MacosUserspace, userspace)];
    assert forall i | 0 <= i < |stages| :: all[i] == stages[i];
    assert all[|stages|].status.Blocked? == !xnu && all[|stages| + 1].status.Blocked? == !userspace;
  }

  /** The blockers of a valid record name what keeps the boot from being verified, and only that. */
  lemma BlockersMean(report: Fields)
    requires !Unhashable(Observation(report), Xnu) && !Unhashable(Observation(report), Userspace)
    requires Said(Part(Gated(report), HandoffKey), ValidKey)
    ensures Get(Part(Gated(report), HandoffKey), Blockers).List?
    ensures var blockers := Get(Part(Gated(report), HandoffKey), Blockers).items;
            && (Str("stage") in blockers <==> EntryMissing(report) || !UserspaceReported(report))
            && (Str("input_integrity") in blockers
                <==> !Said(report, InputIntegrity) && !Said(Part(report, InputIntegrity), ValidKey))
            && (Str("runtime") in blockers
                <==> forall k | k in {RuntimeStarted, NativeRuntimeStarted, TcgRuntimeStarted} :: !Said(report, k))
            && (Str("signature") in blockers <==> !Said(report, SignatureClaim))
  {
    hide EntryStages, Observation, Unhashable, InScope, Target, ScopeNamed, UserspaceReported, BlockerList;
    hide EntryReported, XnuOk, UserspaceOk, TargetMatches, XnuReported, AllVerified, ChainVerified, Gated, Record;
    hide EntryMissing;
    GateRecords(report);
    EvidenceMeans(report);
    EntryBlocked(report);
    RuntimeMeans(report);
    InputsMean(report);
    var xnu := XnuOk(report) && TargetMatches(Observation(report), GateTarget(report));
    TwoMoreBlocked(EntryStages(report, false), xnu, xnu && UserspaceOk(report));
    var outcome := VerifyHandoff(report, GateTarget(report), false);
    RecordSays(outcome);
    BlockersNamed(outcome.handoff);
    TargetMeans(report);
  }

  /** What a report names as its blockers stays; a gate that leaves the bit false names those of its record. */
  lemma BlockersKept(report: Fields)
    ensures HandoffBlockers in report ==> Gated(report)[HandoffBlockers] == report[HandoffBlockers]
    ensures HandoffBlockers !in report ==>
              (HandoffBlockers in Gated(report) <==> Gated(report)[BootVerified] == Bool(false))
    ensures HandoffBlockers !in report && HandoffBlockers in Gated(report) ==>
              var record := Part(Gated(report), HandoffKey);
              Gated(report)[HandoffBlockers] == if Blockers in record then record[Blockers] else List([])
  {
    hide VerifyHandoff, BlockerList, ChainVerified;
  }

  lemma BlockersNamed(h: Handoff)
    ensures BlockerList(h).List?
    ensures var blockers := BlockerList(h).items;
            && (Str("stage") in blockers <==> exists i | 0 <= i < |h.stages| :: h.stages[i].status == Blocked)
            && (Str("input_integrity") in blockers <==> !h.inputs) && (Str("runtime") in blockers <==> !h.runtime)
            && (Str("signature") in blockers <==> !h.signature)
  {
    hide StageBlockers;
    StageBlockersMean(h.stages);
  }

  /** The chain is verified exactly when the direct boot's own evidence holds all five facts. */
  lemma ChainNeedsAllFive(report: Fields)
    ensures Gated(report)[FullChain].Bool?
    ensures Gated(report)[FullChain] == Bool(true) <==>
              forall k | k in {IbootToXnu, XnuToUserspace, XnuExecuted, UserspaceReached, TargetMatch} ::
                Said(Part(Part(Part(report, DirectBoot), ObservationKey), BootChainEvidence), k)
  {
    hide VerifyHandoff, Record, BlockerList, Get, Mapping;
    var chain := Part(Part(Part(report, DirectBoot), ObservationKey), BootChainEvidence);
    assert ChainVerified(report)
        == (Said(chain, IbootToXnu) && Said(chain, XnuToUserspace) && Said(chain, XnuExecuted)
            && Said(chain, UserspaceReached) && Said(chain, TargetMatch));
  }

  /** A verified boot that took the recovery path: DFU was called for, iBEC ran, Stage2 was observed. */
  lemma RecoveryBootNeedsStage2(report: Fields)
    requires !Unhashable(Observation(report), Xnu) && !Unhashable(Observation(report), Userspace)
    requires Gated(report)[BootVerified] == Bool(true)
    requires !(Said(Part(report, DirectBoot), Requested)
               && Get(Part(report, DirectBoot), Selection) == Str("macos"))
    ensures Said(report, IbecExecuted) || Said(Part(report, Stage2), IbecExecuted)
    ensures Said(report, Stage2Observed) || Said(Part(report, Stage2), Observed)
            || Said(Part(report, Stage2), ExecutionObserved)
    ensures Said(report, RecoveryInputsRequired) || Said(Part(report, RecoveryKey), RecoveryInputsRequired)
            || Said(Part(report, RecoveryKey), DfuTransferComplete)
    ensures Get(Part(report, Transition), State) == Str("ibec-ready")
            || Get(Part(report, RecoveryKey), TransitionState) == Str("ibec-ready")
            || Said(Part(report, DfuUpload), TransferComplete) || Said(Part(report, RecoveryKey), DfuTransferComplete)
  {
    hide Gated, Observation, ScopeNamed, UserspaceReported, Unhashable, SignatureBacked, Said;
    BootNeedsEvidence(report);
  }

  /** A verified boot that went straight into macOS never entered DFU, and says so. */
  lemma DirectBootNeedsNoDfu(report: Fields)
    requires !Unhashable(Observation(report), Xnu) && !Unhashable(Observation(report), Userspace)
    requires Gated(report)[BootVerified] == Bool(true)
    requires Said(Part(report, DirectBoot), Requested) && Get(Part(report, DirectBoot), Selection) == Str("macos")
    ensures Get(Part(report, DirectBoot), DfuEntered) == Bool(false)
  {
    hide Gated, Observation, ScopeNamed, UserspaceReported, Unhashable, SignatureBacked, Said;
    BootNeedsEvidence(report);
  }

  /** What was observed of a direct boot decides: without ordered markers there, nothing else makes up for them. */
  lemma DirectObservationDecides(report: Fields)
    requires Part(Part(report, DirectBoot), ObservationKey) != map[]
    requires !OrderedMarkers(Part(Part(report, DirectBoot), ObservationKey))
    ensures Gated(report)[BootVerified] == Bool(false)
  {
    hide Gated, OrderedMarkers, ScopeNamed, EntryReported, Unhashable, SignatureBacked, Said;
    var o := Part(Part(report, DirectBoot), ObservationKey);
    assert Observation(report) == o;
    BitIsVerdict(report);
    if !Unhashable(o, Xnu) && !Unhashable(o, Userspace) {
      BootNeedsEvidence(report);
    } else {
      UnhashableIsFalse(report);
    }
  }

  lemma UnhashableIsFalse(report: Fields)
    requires Unhashable(Observation(report), Xnu) || Unhashable(Observation(report), Userspace)
    ensures !Verdict(report)
  {
    hide Unhashable, Observation;
  }

  /**
   * On the recovery path a verified boot needs the restore chain: a chain that was not reported
   * makes an optional stage that was not observed, and that stage alone keeps the bit false.
   */
  lemma RecoveryBootNeedsRestoreChain(report: Fields)
    requires !Unhashable(Observation(report), Xnu) && !Unhashable(Observation(report), Userspace)
    requires Gated(report)[BootVerified] == Bool(true) && !DirectMode(report)
    ensures var chain := Mapping(Get(report, RestoreChain));
            && chain != map[]
            && (IsTrue(Get(report, RestoreChainCompleted))
                || (IsTrue(Get(chain, SequenceSent)) && IsTrue(Get(chain, BootxAcknowledged))
                    && IsTrue(Get(chain, InputIntegrity))))
  {
    hide Gated, Observation, ScopeNamed, UserspaceReported, Unhashable, SignatureBacked;
    BootNeedsEvidence(report);
  }

  /**
   * The blocker of the first recovery stage speaks of both observations. The stage asks for both
   * exactly where neither is there without the other.
   */
  lemma BothObservations(report: Fields)
    requires !DirectMode(report)
    ensures (EntryStages(report, false)[0].status == Verified
             <==> DfuRequired(report) && IbecReady(report) && DfuComplete(report))
            <==> (DfuRequired(report) ==> (IbecReady(report) <==> DfuComplete(report)))
  {
    hide DirectMode, DfuRequired, DfuComplete, IbecReady;
    assert EntryStages(report, false)[0]
        == MakeStage(IbssDfu, DfuRequired(report) && (IbecReady(report) || DfuComplete(report)));
  }

  const READY_ONLY: Fields := map[
    RecoveryInputsRequired := Bool(true), Transition := Object(map[State := Str("ibec-ready")]),
    IbecExecuted := Bool(true), Stage2Observed := Bool(true),
    RestoreChain := Object(map[SequenceSent := Bool(true)]), RestoreChainCompleted := Bool(true),
    ObservedMarkers := Object(map[
      Xnu := List([Object(map[MarkerKey := Str("Darwin Kernel"), ByteOffset := Int(0)])]),
      Userspace := List([Object(map[MarkerKey := Str("launchd:"), ByteOffset := Int(1)])])]),
    XnuExecuted := Bool(true), UserspaceReached := Bool(true), TargetMatch := Bool(true),
    InputIntegrity := Bool(true), RuntimeStarted := Bool(true)]

  const NAMED: set<Key> := {
    RecoveryInputsRequired, Transition, IbecExecuted, Stage2Observed, RestoreChain, RestoreChainCompleted,
    ObservedMarkers, XnuExecuted, UserspaceReached, TargetMatch, InputIntegrity, RuntimeStarted}

  /** A report that says what that one says, or all of it but for one key, and mentions nothing else. */
  ghost predicate SaysReadyOnly(report: Fields, without: Option<Key>) {
    && (forall k | k in {RecoveryInputsRequired, IbecExecuted, Stage2Observed, RestoreChainCompleted, XnuExecuted,
                         UserspaceReached, TargetMatch, InputIntegrity, RuntimeStarted} ::
          Get(report, k) == if without == Some(k) then Null else Bool(true))
    && (forall k | k in {DirectBoot, ObservationKey, MachineType, GuestOs, TargetMajor, SignatureClaim, DfuUpload,
                         RecoveryKey, Stage2, NativeRuntimeStarted, TcgRuntimeStarted} :: Get(report, k) == Null)
    && Get(report, Transition) == (if without == Some(Transition) then Null
                                   else Object(map[State := Str("ibec-ready")]))
    && Get(report, RestoreChain) == (if without == Some(RestoreChain) then Null
                                     else Object(map[SequenceSent := Bool(true)]))
    && (without != Some(ObservedMarkers) ==> Get(report, ObservedMarkers).Object?)
    && (without == Some(ObservedMarkers) ==> Get(report, ObservedMarkers) == Null)
  }

  lemma ReadyOnlySays()
    ensures SaysReadyOnly(READY_ONLY, None)
  {
    hide READY_ONLY;
    ReadyOnlyFlags();
    ReadyOnlyObjects();
    ReadyOnlyNames();
    ReadyOnlyNulls();
  }

  lemma ReadyOnlyFlags()
    ensures forall k | k in {RecoveryInputsRequired, IbecExecuted, Stage2Observed, RestoreChainCompleted, XnuExecuted,
                             UserspaceReached, TargetMatch, InputIntegrity, RuntimeStarted} ::
              Get(READY_ONLY, k) == Bool(true)
  {
  }

  lemma ReadyOnlyObjects()
    ensures Get(READY_ONLY, Transition) == Object(map[State := Str("ibec-ready")])
    ensures Get(READY_ONLY, RestoreChain) == Object(map[SequenceSent := Bool(true)])
    ensures Get(READY_ONLY, ObservedMarkers).Object?
  {
  }

  lemma ReadyOnlyNulls()
    ensures forall k | k !in NAMED :: Get(READY_ONLY, k) == Null
  {
    hide READY_ONLY;
    ReadyOnlyNames();
    assert forall k :: k in READY_ONLY <==> k in READY_ONLY.Keys;
  }

  lemma ReadyOnlyNames()
    ensures READY_ONLY.Keys == NAMED
  {
  }

  lemma SaysLess(report: Fields, k: Key)
    requires SaysReadyOnly(report, None) && k in NAMED
    ensures SaysReadyOnly(report - {k}, Some(k))
  {
    assert forall other :: Get(report - {k}, other) == if other == k then Null else Get(report, other);
  }

  /**
   * A boot that is verified although the DFU transfer was never reported as finished. Without any one
   * of its keys the same report is verified no more.
   */
  lemma VerifiedOnReadyOnly()
    ensures Gated(READY_ONLY)[BootVerified] == Bool(true) && !DfuComplete(READY_ONLY)
    ensures forall k | k in READY_ONLY :: Gated(READY_ONLY - {k})[BootVerified] == Bool(false)
  {
    hide Gated, SaysReadyOnly, OrderedMarkers, Unhashable, Entries, DfuComplete;
    ReadyOnlySays();
    ReadyOnlyNames();
    ReadyOnlyMarkers();
    EveryKeyCounts(READY_ONLY, None);
    forall k | k in READY_ONLY ensures Gated(READY_ONLY - {k})[BootVerified] == Bool(false) {
      SaysLess(READY_ONLY, k);
      if k != ObservedMarkers {
        SameEntries(READY_ONLY, READY_ONLY - {k});
      }
      EveryKeyCounts(READY_ONLY - {k}, Some(k));
    }
  }

  lemma SameEntries(a: Fields, b: Fields)
    requires Get(a, ObservedMarkers) == Get(b, ObservedMarkers)
    ensures OrderedMarkers(a) == OrderedMarkers(b)
    ensures Unhashable(a, Xnu) == Unhashable(b, Xnu) && Unhashable(a, Userspace) == Unhashable(b, Userspace)
  {
    hide ValidEntry;
    assert Entries(a, Xnu) == Entries(b, Xnu) && Entries(a, Userspace) == Entries(b, Userspace);
  }

  lemma EveryKeyCounts(report: Fields, without: Option<Key>)
    requires SaysReadyOnly(report, without) && (without.Some? ==> without.value in NAMED)
    requires without != Some(ObservedMarkers) ==>
               OrderedMarkers(report) && !Unhashable(report, Xnu) && !Unhashable(report, Userspace)
    ensures Gated(report)[BootVerified] == Bool(without.None?)
    ensures !DfuComplete(report)
  {
    hide Gated, OrderedMarkers, Unhashable, Entries, ScopeNamed, EntryReported, UserspaceReported, XnuReported;
    hide Verdict, SignatureBacked, Said;
    BitIsVerdict(report);
    if without == Some(ObservedMarkers) {
      assert Observation(report) == map[];
      NoMarkers();
    } else {
      assert Observation(report) == report;
    }
    BootNeedsEvidence(report);
    EveryKeyOfEntry(report, without);
    EveryKeyOfEvidence(report, without);
    EveryKeyOfRest(report, without);
  }

  lemma EveryKeyOfRest(report: Fields, without: Option<Key>)
    requires SaysReadyOnly(report, without)
    ensures Said(report, InputIntegrity)
            && (exists k | k in {RuntimeStarted, NativeRuntimeStarted, TcgRuntimeStarted} :: Said(report, k))
            <==> without.None? || without.value !in {InputIntegrity, RuntimeStarted}
    ensures !DfuComplete(report)
  {
    assert Said(report, RuntimeStarted) == (without != Some(RuntimeStarted));
  }

  lemma NoMarkers()
    ensures !OrderedMarkers(map[]) && !Unhashable(map[], Xnu) && !Unhashable(map[], Userspace)
  {
    assert Entries(map[], Xnu) == [] && Entries(map[], Userspace) == [];
  }

  lemma EveryKeyOfEntry(report: Fields, without: Option<Key>)
    requires SaysReadyOnly(report, without) && (without.Some? ==> without.value in NAMED)
    ensures EntryReported(report) <==>
              without.None?
              || without.value !in {RecoveryInputsRequired, Transition, IbecExecuted, Stage2Observed, RestoreChain,
                                    RestoreChainCompleted}
  {
    hide DfuReported, Stage2Reported, RestoreReported;
    EveryKeyOfDfu(report, without);
    EveryKeyOfStages(report, without);
  }

  lemma EveryKeyOfDfu(report: Fields, without: Option<Key>)
    requires SaysReadyOnly(report, without)
    ensures DfuReported(report) <==> without.None? || without.value !in {RecoveryInputsRequired, Transition}
  {
    assert Part(report, RecoveryKey) == map[] && Part(report, DfuUpload) == map[];
    if without != Some(Transition) {
      var transition := map[State := Str("ibec-ready")];
      assert State in transition && Part(report, Transition) == transition;
    } else {
      assert Part(report, Transition) == map[];
    }
  }

  lemma EveryKeyOfStages(report: Fields, without: Option<Key>)
    requires SaysReadyOnly(report, without)
    ensures Stage2Reported(report) <==> without.None? || without.value !in {IbecExecuted, Stage2Observed}
    ensures RestoreReported(report) <==> without.None? || without.value !in {RestoreChain, RestoreChainCompleted}
  {
    assert Part(report, Stage2) == map[];
    var chain := map[SequenceSent := Bool(true)];
    assert SequenceSent in chain && BootxAcknowledged !in chain;
    assert without != Some(RestoreChain) ==> Part(report, RestoreChain) == chain;
  }

  lemma EveryKeyOfEvidence(report: Fields, without: Option<Key>)
    requires SaysReadyOnly(report, without) && (without.Some? ==> without.value in NAMED)
    requires without != Some(ObservedMarkers) ==> Observation(report) == report && OrderedMarkers(report)
    requires without == Some(ObservedMarkers) ==> !OrderedMarkers(Observation(report))
    ensures UserspaceReported(report) <==>
              without.None? || without.value !in {ObservedMarkers, XnuExecuted, UserspaceReached, TargetMatch}
    ensures ScopeNamed(report) && SignatureBacked(report)
  {
    hide Observation, ValidEntry, Entries;
  }

  lemma ReadyOnlyMarkers()
    ensures OrderedMarkers(READY_ONLY) && !Unhashable(READY_ONLY, Xnu) && !Unhashable(READY_ONLY, Userspace)
  {
    hide ValidEntry, Offset, Get, Entries;
    var darwin := Object(map[MarkerKey := Str("Darwin Kernel"), ByteOffset := Int(0)]);
    var launchd := Object(map[MarkerKey := Str("launchd:"), ByteOffset := Int(1)]);
    ReadyOnlyEntries();
    EntryAt(darwin, "Darwin Kernel", 0, XNU_NAMES, 1);
    EntryAt(launchd, "launchd:", 1, USERSPACE_NAMES, 0);
    assert Entries(READY_ONLY, Xnu)[0] == darwin && Entries(READY_ONLY, Userspace)[0] == launchd;
  }

  lemma ReadyOnlyEntries()
    ensures Entries(READY_ONLY, Xnu) == [Object(map[MarkerKey := Str("Darwin Kernel"), ByteOffset := Int(0)])]
    ensures Entries(READY_ONLY, Userspace) == [Object(map[MarkerKey := Str("launchd:"), ByteOffset := Int(1)])]
  {
  }

  lemma EntryAt(entry: Json, name: string, offset: nat, names: seq<string>, i: nat)
    requires entry == Object(map[MarkerKey := Str(name), ByteOffset := Int(offset)]) && i < |names| && names[i] == name
    ensures ValidEntry(entry, names) && Offset(entry) == offset && Get(entry.fields, MarkerKey) == Str(name)
  {
  }

  lemma TwoMoreStages(stages: seq<Stage>, xnu: bool, userspace: bool)
    ensures AllVerified(stages + [MakeStage(XnuEntry, xnu), MakeStage(MacosUserspace, userspace)])
            <==> AllVerified(stages) && xnu && userspace
  {
    var all := stages + [MakeStage(XnuEntry, xnu), MakeStage(MacosUserspace, userspace)];
    assert forall i | 0 <= i < |stages| :: all[i] == stages[i];
    assert all[|stages|].status.Verified? == xnu && all[|stages| + 1].status.Verified? == userspace;
  }

  /** A report claims a boot that its evidence does not bear. */
  predicate FalseClaim(report: Fields) {
    var outcome := Assess(report, GateTarget(report), false);
    outcome.Returns? && !outcome.handoff.boot && IsTrue(Get(report, BootVerified))
  }

  /**
   * A second pass changes nothing at all, unless the first one met a false claim: then the record
   * of a contradiction gives way to the record of what is missing.
   */
  lemma GateSettles(report: Fields)
    ensures Gated(Gated(report)) == Gated(report) <==> !FalseClaim(report)
    ensures !FalseClaim(Gated(report))
  {
    hide Assess, ChainVerified, BlockerList, SameView, Record;
    var once := Gated(report);
    GateKeepsView(report);
    AssessesTheSame(report, once, GateTarget(report), false);
    SameTarget(report, once, None);
    SameConditions(report, once);
    Untouched(report, once);
    BitIsVerdict(report);
    var outcome := Assess(report, GateTarget(report), false);
    if FalseClaim(report) {
      RecordsDiffer(outcome);
      assert once[HandoffKey] == Record(ContractError);
      assert Gated(once)[HandoffKey] == Record(outcome);
    } else {
      assert VerifyHandoff(once, GateTarget(once), false) == VerifyHandoff(report, GateTarget(report), false);
      assert Gated(once) == once;
    }
  }

  /** The smallest report the gate does not settle in one pass: a claim with nothing behind it. */
  lemma BareClaim()
    ensures var report := map[BootVerified := Bool(true)];
            FalseClaim(report) && Gated(Gated(report)) != Gated(report)
  {
    hide Gated, EntryStages, XnuOk, UserspaceOk, TargetMatches, SignatureOk;
    var report := map[BootVerified := Bool(true)];
    assert Observation(report) == map[];
    assert Entries(map[], Xnu) == [] && Entries(map[], Userspace) == [];
    assert InScope(report) && Target(report, GateTarget(report)) == Some(None) && !InputsOk(report);
    GateSettles(report);
  }

  lemma RecordsDiffer(outcome: Outcome)
    requires outcome.Returns?
    ensures Record(outcome) != Record(ContractError)
  {
    assert Record(outcome).fields[ValidKey] == Bool(true) && Record(ContractError).fields[ValidKey] == Bool(false);
  }

  /** The gate raises, instead of returning a verdict, on an in-scope report exactly when a marker cannot be hashed. */
  lemma GateRaises(report: Fields)
    requires InScope(report) && Target(report, GateTarget(report)).Some?
    ensures VerifyHandoff(report, GateTarget(report), false) == TypeError
            <==> Unhashable(Observation(report), Xnu) || Unhashable(Observation(report), Userspace)
  {
    hide Unhashable, Observation, InScope, Target;
  }

  lemma GateRaisesOnce() returns (report: Fields)
    ensures InScope(report) && Target(report, GateTarget(report)).Some?
    ensures VerifyHandoff(report, GateTarget(report), false) == TypeError
  {
    var entry := Object(map[MarkerKey := List([])]);
    var markers := Object(map[Xnu := List([entry])]);
    var observation := map[ObservedMarkers := markers];
    report := map[ObservationKey := Object(observation)];
    assert ObservationKey in report && ObservedMarkers in observation;
    assert Observation(report) == observation;
    assert Entries(observation, Xnu) == [entry];
    assert Entries(observation, Xnu)[0] == entry;
    GateRaises(report);
  }
}
