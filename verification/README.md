# VMApple and VSK boot-chain verification

This project models the parts of the 26x86 repository that decide what is admitted, sent, signalled or claimed, and
proves what they promise. Each module follows one component.

- `Bytes`, `Decimal`: byte strings, fixed-width fields, decimal notation.
- `Der`, `Im4p`: the two DER encoders and the strict and the looser reader; IM4P roles, their retagging, and the IMG4 envelope.
- `ElfAdmission`: the static ELF64 check of bundle payloads and what it means for a loader.
- `Manifest`, `Bundle`: the bundle manifest codec, and creating and verifying a signed directory under I/O faults.
- `Plist`, `PlistPrint`, `PlistTidy`, `Config`, `ConfigExample`: the event-driven plist reader, its recursive meaning,
  printing, the exact documents it accepts, the configuration normaliser, and a configuration that passes it.
- `Crc32`, `UsbBridge`, `DfuSchedule`, `Descriptors`, `RecoveryTransport`, `DfuUpload`, `RestoreSequence`: the DFU suffix;
  the framed byte stream and a DFU device after section 6.1 and appendix A of the USB DFU 1.1 specification; the planned
  downloads; the descriptor walk; the host transport; the stand-alone uploader; the restore sequence.
- `ProcessTable`, `OwnedRun`: signalling by recorded identity against a process table that changes between any two
  system calls, and the supervised run with its escalation, captures and integrity verdict.
- `UartEvidence`, `HandoffGate`, `TraceWindows`: boot markers in an untrusted log, the gate over run reports, sampled traces.
- `BootPicker`, `PackageGraph`: the two-second boot picker and the package policy.

Code that works by changing things step by step is modelled by methods and classes, each proved against a specification;
the theorems are about those specifications. The environment is adversarial: how reads are cut, which calls fail or time
out, how far a clock moves, what a guest answers and what other processes do are left open, within the rules stated in
`UsbBridge`, `ProcessTable` and `Bundle.Directory`.

Where the code does less than one might expect, the model follows the code and says exactly when it is enough:

- The looser DER check takes a non-minimal outer length, so a wrapped payload reads back exactly when its own outer
  length is minimal (`Im4p.EnvelopeReadsBack`, `Im4p.LooseCheckTakesLongForm`). Normalized roles always are.
- The closing verification of a new bundle can reject inputs that passed every check before: exactly when the profile is
  not the conformance one and its build number plus one is not the target. A registered profile
  fits exactly one of the two targets (`Bundle.StagedVerifies`, `Bundle.OneTarget`, `Bundle.AcceptedMisfit`).
- The stand-alone uploader accepts block sizes whose downloads cannot be sent (`DfuSchedule.DownloadsPack`,
  `DfuUpload.RangeEndsNeverComplete`).
- A start time identifies a process only if the clock ticked between its start and the recording (`ProcessTable.SameInstance`,
  `ProcessTable.ReuseWithinOneTick`).
- A boot verdict for a requested kernel major can be taken back by further output (`UartEvidence.VerdictIsFinal`,
  `UartEvidence.VerdictTakenBack`).
- A second pass of the hand-off gate rewrites its record after a false claim, though never the bit
  (`HandoffGate.GateSettles`, `HandoffGate.BareClaim`), and a marker that is a list or an object makes it raise
  (`HandoffGate.GateRaises`, `HandoffGate.GateRaisesOnce`).
- A verified recovery boot needs a reported restore chain, although that stage is optional
  (`HandoffGate.RecoveryBootNeedsRestoreChain`).
- The first recovery stage of the gate is satisfied by a finished DFU transfer or by an iBEC-ready transition, though its
  blocker text asks for both; the model follows the code (`HandoffGate.BothObservations`,
  `HandoffGate.VerifiedOnReadyOnly`).
- A cleanup whose clock jumps over the last two fifths of its window can end without a KILL (`OwnedRun.TermAlone`); a
  reading of the clock in them that two more readings follow is enough for it to reach everyone who stays
  (`OwnedRun.Supervisor.RunOwned`). The last signals of a round may go out after the end of the window.
- A cleanup reported complete can leave a process in the session that entered it after /proc was last listed
  (`ProcessTable.EmptyExactly`, `ProcessTable.ForkAndLeave`).
- A restore run whose inputs changed reports the sequence as not sent but keeps the acknowledged bootx
  (`RestoreSequence.RunRestore`).

To verify: `dafny verify dfyconfig.toml`.

## Model

| member | source | states |
|---|---|---|
| `Der.ReadEncode` | x86/vmapple_restore.py:72-90 | Reading an encoding, wherever it lies in a buffer, returns its tag and exactly its content if and only if the tag number is low and the content is shorter than 2^32 bytes |
| `Der.ReadIsCanonical` | x86/vmapple_restore.py:72-90 | Whatever the strict reader accepts is byte for byte the encoder's output for what it read |
| `Der.CheckedEncodeIsEncode` | Tools/prepare_macos27_inputs.py:98-108 | The tool's encoder gives the same bytes as the personalization encoder, and refuses exactly the tags that are not low tags of one octet |
| `Der.ReadDependsOnHeader` | Tools/prepare_macos27_inputs.py:47-67 | Only the bytes of the header decide what the reader returns; the content cannot move an element's bounds |
| `Der.ReadInSlice` | x86/vmapple_restore.py:72-90 | Reading inside a slice is reading the whole buffer at a shifted offset |
| `Der.StrictIsLooseAndMinimal` | x86/vmapple_personalization.py:122-132 | The strict whole-object check accepts exactly what the looser one accepts with a minimal outer length |
| `Im4p.ParseSpans` | x86/vmapple_restore.py:93-113 | The field loop returns the spans of the recursive field split, or fails where that fails |
| `Im4p.ComposedRoleParses` | x86/vmapple_restore.py:93-113 | A role written field by field, with or without further fields, reads back with its type and its payload |
| `Im4p.FieldsInOrder` | x86/vmapple_restore.py:97-101 | The fields lie inside the container in ascending order, with a header between any two |
| `Im4p.FieldsTile` | x86/vmapple_restore.py:97-101 | The fields tile the container: each header is read where the last field ended, and the last field ends where the container does |
| `Im4p.FieldsIgnoreContent` | x86/vmapple_restore.py:97-101 | Overwriting bytes inside one field's content moves no field |
| `Im4p.RetagKeepsStructure` | x86/vmapple_restore.py:154-164 | Replacing the four type bytes keeps the length, every other byte, the spans and the payload |
| `Im4p.NormalizeRoleSound` | x86/vmapple_restore.py:147-164 | Exactly when a role normalizes; the result differs from its source in at most the four type bytes, parses to the same spans and payload, matches the digest and is a fixed point; the payload check after retagging never fires |
| `Im4p.RoleTypes` | x86/vmapple_restore.py:35-41 | Each role by the letters of the type it may carry and the type it must get |
| `Im4p.RolesApart` | x86/vmapple_restore.py:147-164 | What was prepared for one role is refused for every other one |
| `Im4p.EnvelopeReadsBack` | x86/vmapple_restore.py:183-191 | The wrapped bytes read back as the IMG4 magic, the unchanged IM4P and [0] with the unchanged ticket if and only if the payload's outer length is minimal and the contents stay below 2^32 bytes |
| `Im4p.PipelineTotal` | x86/vmapple_restore.py:147-191 | Every role that normalizes can be wrapped with every ticket the looser check takes, and the strict reader then finds the three parts unchanged |
| `Im4p.StrictWrapperReadsBack` | Tools/prepare_macos27_inputs.py:121-129 | Whatever the tool's wrapper produces reads back as its three unchanged parts |
| `Im4p.FirmwareReadsBack` | x86/vmapple_personalization.py:135-144 | A wrapped firmware image reads back exactly when its payload's outer length is minimal, and a payload that parses carries the selected component's type |
| `Im4p.LooseCheckTakesLongForm` | x86/vmapple_personalization.py:122-144 | A concrete iBSS payload with one length octet too many is wrapped, although the strict check refuses it, and the envelope does not read back |
| `ElfAdmission.ValidateElf` | x86/vsk_bundle.py:78-153 | The whole check accepts exactly the admissible files and reports their entry and segment count |
| `ElfAdmission.ScanHeaders` | x86/vsk_bundle.py:112-149 | The header loop collects exactly the loadable segments in table order, and whether an executable one backs the entry |
| `ElfAdmission.CheckSections` | x86/vsk_bundle.py:95-109 | The section loop accepts exactly the tables whose sections are all acceptable |
| `ElfAdmission.HeaderMeans` | x86/vsk_bundle.py:112-139 | One program header passes exactly if its own fields say: unused; an empty stack that is not executable; the header table itself, read only; or a segment that is readable, not both writable and executable, inside the file and in one canonical half |
| `ElfAdmission.SectionMeans` | x86/vsk_bundle.py:103-109 | One section passes exactly if its own fields say it is no relocation, dynamic, dynamic symbol or thread-local section and lies inside the file |
| `ElfAdmission.AdmittedHeader` | x86/vsk_bundle.py:112-149 | Every program header of an admitted file is of that kind, none asks for an interpreter, dynamic linking or thread-local storage, those that load are exactly the segments, and no other used header has the execute bit |
| `ElfAdmission.AdmittedSection` | x86/vsk_bundle.py:95-109 | Every section of an admitted file is of that kind |
| `ElfAdmission.TablesMean` | x86/vsk_bundle.py:87-111 | File header, tables and entry pass exactly if the fields say: a static x86-64 executable, the three tables inside the file without an overlap, a canonical entry |
| `ElfAdmission.AdmittedTables` | x86/vsk_bundle.py:87-111 | So for every admitted file |
| `ElfAdmission.ImageBounds` | x86/vsk_bundle.py:150-151 | The smallest page start and the largest page end bound every pair of segments |
| `ElfAdmission.Power2TestExact` | x86/vsk_bundle.py:82-83 | The bit trick accepts exactly zero and the powers of two |
| `ElfAdmission.HeaderReadsInside` | x86/vsk_bundle.py:87-114 | In an admitted file every program and section header read stays inside the input |
| `ElfAdmission.PageRounding` | x86/vsk_bundle.py:131-141 | Page rounding keeps a segment inside its pages, without 64-bit wrap |
| `ElfAdmission.PagesAscend` | x86/vsk_bundle.py:139-151 | Page ranges of admitted segments are strictly ascending and disjoint |
| `ElfAdmission.OverlapMeans` | x86/vsk_bundle.py:141-143 | Two segments are refused together exactly when an address of each lies in the same page |
| `ElfAdmission.EntryMeans` | x86/vsk_bundle.py:148-151 | The entry counts exactly if it is a byte of the file in an executable segment |
| `ElfAdmission.OneCanonicalHalf` | x86/vsk_bundle.py:134-151 | All segments lie in one canonical half, although each is only checked against its own, and within 64 MiB of each other |
| `ElfAdmission.WriteXorExecute` | x86/vsk_bundle.py:129-143 | No page is both writable and executable: each page belongs to one segment |
| `ElfAdmission.AddressesDisjoint` | x86/vsk_bundle.py:131-147 | No address is covered by two segments |
| `ElfAdmission.LoadedByte` | x86/vsk_bundle.py:129-149 | After loading in any order, a covered address holds its one owner's file byte or zero fill |
| `ElfAdmission.LoadedImage` | x86/vsk_bundle.py:129-149 | After loading in any order memory holds, byte by byte, the bytes of the file at offset + k and zeros behind them |
| `ElfAdmission.LoadOrderIrrelevant` | x86/vsk_bundle.py:129-149 | Loading the segments in any two orders gives the same memory |
| `ElfAdmission.EntryIsFileBacked` | x86/vsk_bundle.py:148-151 | The byte at the entry address is the file byte at offset + (entry - virtual) of exactly one segment, which is executable and not writable |
| `ElfAdmission.TinyAdmissible` | x86/vsk_bundle.py:78-153 | A concrete file of 121 bytes passes the check |
| `Decimal.ParsePrint` | x86/vsk_bundle.py:156-163 | Decimal printing is canonical and parses back |
| `Decimal.PrintParse` | x86/vsk_config.py:132-138 | A canonical numeral is the printed form of its value |
| `Decimal.PrintInjective` | x86/vsk_bundle.py:156-163 | Different instance numbers print differently |
| `Manifest.ParseManifest` | x86/vsk_bundle.py:177-202 | The parser as written, with its running previous key, accepts and returns exactly what the field-by-field definition does |
| `Manifest.CheckEntry` | x86/vsk_bundle.py:189-199 | One entry passes exactly when it is named, bounded, sorted after the previous one and has zero reserved fields |
| `Manifest.EntryMeans` | x86/vsk_bundle.py:156-199 | The roles, instances and sizes an entry may have, in numbers |
| `Manifest.ParsePack` | x86/vsk_bundle.py:272-273 | Parsing a packed valid manifest returns it, for every epoch floor it meets |
| `Manifest.PackParse` | x86/vsk_bundle.py:177-202 | Every accepted byte string is the packing of its parse, for the wanted target and floor |
| `Manifest.RolesForced` | x86/vsk_bundle.py:200-201 | Acceptance forces one config, one core and then only services |
| `Manifest.FileNamesDistinct` | x86/vsk_bundle.py:156-163 | No two entries of an accepted manifest share a file name |
| `Bundle.VerifyBundle` | x86/vsk_bundle.py:205-243 | Acceptance means the directory verifies: signature, manifest, no unexpected file, every payload as described and admissible in its role; without I/O faults the two coincide |
| `Bundle.VerifiedPayload` | x86/vsk_bundle.py:205-243 | Every payload of a directory that verifies has the size and both digests that were signed for, and is admissible in its role |
| `Bundle.TamperNeedsCollision` | x86/vsk_bundle.py:205-243 | Two directories that verify with the same manifest and differ in more than signature and report hold, under one name, different payloads of one size on which both hash functions collide |
| `Bundle.CheckInputs` | x86/vsk_bundle.py:261-271 | The first pass yields the manifest entries of inputs that are all admissible and no two of which are the same file |
| `Bundle.InputMeans` | x86/vsk_bundle.py:261-271 | What an input may be, in numbers |
| `Bundle.ServicesListed` | x86/vsk_bundle.py:260 | The list of service inputs holds exactly the given services |
| `Bundle.InputsOrdered` | x86/vsk_bundle.py:260 | Config, core and the sorted services come in manifest order, each with a name |
| `Bundle.DescribedOk` | x86/vsk_bundle.py:254-273 | What passes the checks of the inputs is a manifest the parser accepts |
| `Bundle.StagedVerifies` | x86/vsk_bundle.py:224-235 | The closing verification accepts a faithfully staged bundle if and only if the profile is the conformance one or its build number plus one is the target |
| `Bundle.OneTarget` | x86/vsk_bundle.py:227-231 | Accepted inputs with a registered profile fit exactly one of the two targets; the conformance profile fits both |
| `Bundle.AcceptedMisfit` | x86/vsk_bundle.py:224-235 | Concrete inputs, with a registered macOS 26 profile, pass every check before and are rejected by the closing verification for target 27 however they are staged |
| `Bundle.ReportIgnored` | x86/vsk_bundle.py:220-222 | Writing the report next to a bundle does not change whether it verifies |
| `Bundle.NamesApart` | x86/vsk_bundle.py:220 | No payload name collides with manifest, signature or report |
| `Bundle.Stage` | x86/vsk_bundle.py:279-290 | Staging that succeeds leaves a directory that verifies; without faults it succeeds exactly when the profile fits, and then holds the inputs under their names |
| `Bundle.CreateBundle` | x86/vsk_bundle.py:246-299 | A returned bundle verifies; after an error there is no signature unless the path check or the removal of the cleanup failed; nothing but the signature is ever removed and nothing that existed is touched; without faults success is exactly: acceptable request and inputs, new directory, fitting profile |
| `Crc32.RegisterZero` | x86/vmapple.py:1738 | Exactly one tail of up to four bytes drives the register to zero: its own value, low byte first |
| `Crc32.SuffixClosesRegister` | x86/vmapple.py:1738-1739 | The register over image, twelve suffix bytes and the four appended ones ends at zero, and no other four bytes would do |
| `Crc32.ChangedByteDetected` | Tools/prepare_macos27_inputs.py:132-135 | Changing any one byte of the uploaded file leaves a register other than zero |
| `Crc32.PublishedEntries` | Tools/prepare_macos27_inputs.py:132-135 | Known table entries fix the polynomial and the bit order |
| `Crc32.RegisterInjective` | Tools/vmapple_tcg_dfu.py:253-255 | Different registers stay different over the same bytes |
| `Crc32.TableFormRefines` | Tools/vmapple_tcg_dfu.py:253-255 | The byte-at-a-time table form of RFC 1952 takes the same step as the bit-by-bit one |
| `UsbBridge.HostFrameReadsBack` | x86/vmapple.py:1588-1596 | A host frame is read by the bridge as the packet it was made from |
| `UsbBridge.GuestFrameUnique` | x86/vmapple.py:1577-1586 | A guest frame ends where its length says; nothing after it can be taken for part of it |
| `UsbBridge.SetupReadsBack` | x86/vmapple.py:1610 | The eight setup bytes and the data stage of a control transfer are recovered exactly |
| `UsbBridge.FitsExactly` | x86/vmapple.py:1598-1610 | The requests that are sent are exactly those some eight setup bytes stand for |
| `DfuSchedule.ScheduleCarries` | x86/vmapple.py:1754-1764 | The planned downloads join to the file, are numbered without a gap, and end with the only empty one |
| `DfuSchedule.DownloadsPack` | Tools/vmapple_tcg_dfu.py:209-210 | All download requests fit a setup packet if and only if neither the closing number nor the first length exceeds sixteen bits |
| `DfuSchedule.LimitPacks` | x86/vmapple.py:1733-1768 | In 2048-byte blocks every file up to 64 MiB fits, the closing number being 32769 at the limit |
| `DfuSchedule.BulkPlanIsOneTransfer` | x86/vmapple.py:1847-1856 | The writes of a recovery image join to it, and only the last one ends the USB transfer |
| `RecoveryTransport.Host.ReadExact` | x86/vmapple.py:1564-1575 | However recv cuts up the stream, exactly the next count bytes are taken |
| `RecoveryTransport.Host.ReceiveFrame` | x86/vmapple.py:1577-1581 | One whole frame is taken and no byte more |
| `RecoveryTransport.Host.Receive` | x86/vmapple.py:1577-1586 | An accepted answer is the guest's answer with the expected type and endpoint; after a refused one no byte of it is left over |
| `RecoveryTransport.Host.Send` | x86/vmapple.py:1588-1596 | One packet reaches the guest whole or not at all |
| `RecoveryTransport.Host.Control` | x86/vmapple.py:1598-1622 | A request that does not fit is refused unsent; an accepted answer is the device's to exactly this request; at most one download or command takes effect |
| `RecoveryTransport.Host.DfuState` | x86/vmapple.py:1630-1634 | The returned state is the device's and the device is unchanged |
| `RecoveryTransport.Host.DfuStatus` | x86/vmapple.py:1636-1642 | Status and state are the device's, the answer is the next one of the device's own record of polls, and nothing was taken by it |
| `RecoveryTransport.Host.WaitState` | x86/vmapple.py:1644-1657 | Polling ends; what is recorded is the device's own record of its answers; success means that all of them said no error, waiting states on the way, and a device in the target state |
| `RecoveryTransport.Host.SendBlock` | x86/vmapple.py:1756-1765 | A download is taken once or not at all; success means taken and settled, every answer of the device since then without an error |
| `RecoveryTransport.Host.Transfer` | x86/vmapple.py:1749-1772 | On every run the device has taken a first part of the planned downloads; completion means all of them, and that the reported statuses are all the polls the device answered; an acknowledged reset means one reset of the device after all of its downloads, and none without the request |
| `RecoveryTransport.Host.SendDfuFile` | x86/vmapple.py:1730-1780 | A report of completion means the device took exactly the planned downloads of image and suffix, answered every poll of the run without error, settled after each block, and was in state 8; an acknowledged reset means the device was reset once, after the closing download; every other run leaves a first part |
| `RecoveryTransport.UploadedFile` | x86/vmapple.py:1730-1780 | The planned downloads are image and suffix in blocks 0..n-1 and one empty block, all in sixteen bits, with a CRC register that ends at zero |
| `RecoveryTransport.AheadOnce` | x86/vmapple.py:1754-1764 | One more block keeps what was sent plus what remains equal to the plan |
| `RecoveryTransport.PlanDone` | x86/vmapple.py:1754-1765 | When the file is used up, the reported blocks are the plan but for its closing block |
| `RecoveryTransport.Host.SendCommand` | x86/vmapple.py:1685-1694 | A printable command is taken once, or refused by iBoot, or does not reach it; other text is not sent; where the host can go on it was taken or refused |
| `RecoveryTransport.PrintableMeans` | x86/vmapple.py:1685-1692 | A command is one to 255 characters with codes from 0x20 to 0x7E |
| `RecoveryTransport.Host.BulkOut` | x86/vmapple.py:1667-1673 | A write is taken once or not at all |
| `RecoveryTransport.Host.SendRecoveryFile` | x86/vmapple.py:1830-1865 | On every run the device has taken a first part of the planned writes; completion means all of them |
| `RecoveryTransport.RecoveredImage` | x86/vmapple.py:1846-1857 | A recovery image reaches the device as one bulk transfer of exactly its bytes |
| `RecoveryTransport.Host.ConfigureRecovery` | x86/vmapple.py:1696-1728 | Success means the device described itself as a recovery device and sent this configuration, a descriptor chain of the announced length that advertises bulk OUT endpoint 4, and that this configuration is the selected one |
| `RecoveryTransport.RecoveryDeviceMeans` | x86/vmapple.py:1696-1703 | A device descriptor is that of a recovery device exactly for vendor 0x05AC and the products 0x1280 to 0x1283 |
| `Descriptors.FindBulkOut` | x86/vmapple.py:1712-1723 | The walk fails exactly on bytes that are no descriptor chain, and finds the endpoint exactly when the chain advertises it |
| `Descriptors.ChainUnique` | x86/vmapple.py:1712-1721 | No bytes can be read as two different descriptor chains |
| `Descriptors.EndpointMeans` | x86/vmapple.py:1712-1723 | An endpoint descriptor is the wanted one exactly as endpoint 4, out, bulk, whatever else it says |
| `DfuUpload.DfuSocket.Receive` | Tools/vmapple_tcg_dfu.py:59-70 | One whole frame is taken and no byte more |
| `DfuUpload.DfuSocket.Control` | Tools/vmapple_tcg_dfu.py:91-112 | A request whose fields do not pack is never sent; an accepted answer is the device's to exactly this request |
| `DfuUpload.DfuSocket.WaitDfuState` | Tools/vmapple_tcg_dfu.py:183-201 | The device answers at most 64 polls; what is recorded is its answers; success means all of them without error and a device in the target state |
| `DfuUpload.DfuSocket.Transfer` | Tools/vmapple_tcg_dfu.py:236-288 | On every run the device has taken a first part of the planned downloads; completion means all of them, that they all pack, that the reported statuses are all the polls the device answered, and one reset after the closing download |
| `DfuUpload.DfuSocket.Upload` | Tools/vmapple_tcg_dfu.py:204-300 | Completion means the device took exactly the downloads planned for this block size, which all fit sixteen bits, and answered every poll without error; otherwise it holds a first part |
| `DfuUpload.ClosingNumber` | Tools/vmapple_tcg_dfu.py:280-282 | The computed closing number is the number of blocks sent |
| `DfuUpload.RangeEndsNeverComplete` | Tools/vmapple_tcg_dfu.py:209-210 | Both ends of the accepted range of block sizes cannot complete for images of 64 KiB and more |
| `RestoreSequence.PreparedImage` | x86/vmapple_restore.py:287-298 | Each prepared image reads back as its normalized role and the ticket, and travels as one transfer |
| `RestoreSequence.Prepare` | x86/vmapple_restore.py:287-298 | Every given role is normalized and wrapped, or the run ends before anything is sent |
| `RestoreSequence.Perform` | x86/vmapple_restore.py:308-331 | A step adds to what the device took exactly its own effect, or a first part of it when it fails, and loses nothing; a first part of the plan stays one |
| `RestoreSequence.SendExtras` | x86/vmapple_restore.py:348-356 | Up to where the run ends each extra command was taken or refused, in their order; success means that of all of them |
| `RestoreSequence.RunRestore` | x86/vmapple_restore.py:243-383 | Whatever fails, the device took a first part of: each image directly followed by the command that names it, the kernel as the last image, the extras, the boot arguments and bootx last; an acknowledged bootx means all of it, that every extra command was taken or refused and nothing else was refused, and one empty download as a notification; a sent sequence also means unchanged inputs; extra commands have the spelling the tool asks for |
| `RestoreSequence.RecordSpelled` | x86/vmapple_restore.py:308-360 | In the whole record firmware, ramdisk, devicetree and setpicture stand directly behind the writes of their images, no write follows the kernel, and the boot arguments and bootx with request 1 end it |
| `RestoreSequence.PlanRecord` | x86/vmapple_restore.py:308-360 | Performing the planned steps writes exactly that record |
| `RestoreSequence.ExtraMeans` | x86/vmapple_restore.py:348-350 | An extra command is a letter followed by letters, digits, blanks and five signs, by their codes |
| `Plist.Reader.OnStart` | x86/vsk_config.py:80-95 | The start handler takes the step of the stack machine or raises |
| `Plist.Reader.OnChars` | x86/vsk_config.py:97-101 | Text goes to the innermost open element; outside the root only blank text passes |
| `Plist.Reader.OnEnd` | x86/vsk_config.py:103-144 | The end handler closes an element into its value and attaches it, or raises |
| `Plist.BuildDictionary` | x86/vsk_config.py:108-119 | The pairwise loop builds exactly the dictionary of alternating, unrepeated keys |
| `Plist.ParseEvents` | x86/vsk_config.py:163-172 | Feeding the handlers any balanced stream gives what the machine says |
| `Plist.RunElement` | x86/vsk_config.py:80-144 | Over one element's events the machine adds exactly the element's recursive value to its parent |
| `Plist.ReadForest` | x86/vsk_config.py:58-172 | Every balanced stream is the event stream of a forest |
| `Plist.MachineComputesMeaning` | x86/vsk_config.py:58-172 | On the events of any forest the handlers accept exactly the forests with a recursive meaning, and return it |
| `Plist.BalancedStreamMeaning` | x86/vsk_config.py:58-172 | The same for every balanced stream of events |
| `Plist.Blanks` | x86/vsk_config.py:97-106 | The characters that count as blank, one by one |
| `PlistPrint.AcceptanceBounds` | x86/vsk_config.py:74-119 | Acceptance implies depth at most 16, at most 4096 nodes, unique keys in every dictionary and integers within 64 bits |
| `PlistPrint.IntegerMeaning` | x86/vsk_config.py:132-138 | A printed integer is read back exactly when it fits 64 bits |
| `PlistPrint.ParsePrint` | x86/vsk_config.py:58-172 | Printing a value to events and parsing gives it back if it is in bounds, and is refused otherwise |
| `PlistPrint.ReprintAccepted` | x86/vsk_config.py:58-172 | Every accepted document can be printed and parsed again to the same value |
| `PlistTidy.TidyKeepsMeaning` | x86/vsk_config.py:103-144 | Dropping comments and the blank text between elements, joining pieces of text and trimming integers changes the meaning of no element |
| `PlistTidy.TidyIsPrint` | x86/vsk_config.py:103-144 | An accepted element is, tidied, the printed form of its value |
| `PlistTidy.AcceptedIsPrinted` | x86/vsk_config.py:58-172 | A document is accepted with a value if and only if it tidies up to the printed form of that value, has only blank text beside its root, and value and nodes are within bounds |
| `Config.NormalizeStorage` | x86/vsk_config.py:309-333 | The storage loop with its sets and map accepts exactly pairwise compatible bindings and lower-cases their GUIDs |
| `Config.NormalizeConfig` | x86/vsk_config.py:284-355 | The normaliser as written equals its declarative definition |
| `Config.LowerGuid` | x86/vsk_config.py:223-230 | Lower-casing a GUID keeps it a GUID and is a fixed point |
| `Config.NormalizeIdempotent` | x86/vsk_config.py:284-355 | Normalizing a normalized configuration accepts it and changes nothing |
| `Config.NormalizedFacts` | x86/vsk_config.py:312-333 | Partition GUIDs of a result are pairwise distinct, and a disk GUID has one serial |
| `Config.NormalizedBinding` | x86/vsk_config.py:312-333 | Every binding of a result, a single one included, has both GUIDs in lower case and its serial unchanged |
| `Config.MemoryBelow2To64` | x86/vsk_config.py:302-308 | Guest memory plus host reserve of a result stays below 2^64 bytes, and the JIT cache within the reserve |
| `Config.SecurityFixed` | x86/vsk_config.py:297-301 | Every accepted configuration demands the four protections and rules out the DMA bypass |
| `Config.MetalIsValidated` | x86/vsk_config.py:334-355 | A configuration that asks for Metal is accepted only with a registered adapter that is validated, the full graphics profile, and no fallback |
| `Config.AcceptedSections` | x86/vsk_config.py:284-346 | The keys of an accepted configuration, its version and policy, and its processor and graphics sections, field by field |
| `Config.ItemMeans` | x86/vsk_config.py:312-322 | A storage binding passes exactly if its fields say: an identifier, the raw partition backend, two GUIDs that are not zero, one of two sector sizes, a flag |
| `Config.ProfileMeans` | x86/vsk_config.py:236-281 | A profile resolves exactly if it is the conformance one without Metal, or registered with the fixed choices of a macOS profile and, for Metal, a validated adapter |
| `Config.SelectedMajor` | x86/vsk_config.py:236-281 | A configuration that normalizes names the conformance profile or a registered build of major 25 or 26 |
| `ConfigExample.ExampleSelects` | x86/vsk_config.py:284-355 | A concrete configuration and registry normalize, and select build 25 |
| `ProcessTable.NoOldInstanceReturns` | x86/recovery_supervisor.py:145-152 | A process found later either never left its number or started since |
| `ProcessTable.SameInstance` | x86/recovery_supervisor.py:138-152 | A recorded number and start time name the same instance later, if the clock had ticked between its start and the recording |
| `ProcessTable.ReuseWithinOneTick` | x86/recovery_supervisor.py:138-152 | Without that tick a run exists in which another instance has the very same identity |
| `ProcessTable.HeldThroughout` | x86/recovery_supervisor.py:167-182 | The instance a descriptor stands for cannot lose its number and still receive the signal |
| `ProcessTable.GoneStays` | x86/recovery_supervisor.py:145-152 | An instance that has left the table is never in it again |
| `ProcessTable.Kernel.SignalMember` | x86/recovery_supervisor.py:167-182 | Whatever others do between the four steps, only a process with the recorded number and start time receives the signal, never the supervisor, and it is the recorded instance if the clock had ticked between its start and the recording; a process that keeps its identity does receive it unless a call fails |
| `ProcessTable.Kernel.SessionMembers` | x86/recovery_supervisor.py:155-164 | Whoever is listed was a process of the table during the scan, in the session, and is not the supervisor; whoever stayed in the session since /proc was listed is listed; a scan fails exactly by one call or entry that does |
| `ProcessTable.EmptyExactly` | x86/recovery_supervisor.py:155-164 | After a scan that found nobody the session is empty exactly when no newcomer is in it: nobody who was not in it when /proc was listed |
| `ProcessTable.NewcomersAreYoung` | x86/recovery_supervisor.py:155-164 | A newcomer has started since /proc was listed, unless it has the number of the session itself |
| `ProcessTable.ForkAndLeave` | x86/recovery_supervisor.py:155-164 | A run in which the only member forks and leaves the session between listing and reading: nobody is found and its child is in the session |
| `OwnedRun.Capture.Add` | x86/recovery_supervisor.py:204-207 | The capture is always the first 4 MiB of the stream and counts all of it |
| `OwnedRun.Capture.Truncated` | x86/recovery_supervisor.py:209-217 | Truncated exactly when the stream was longer than the limit; otherwise the capture is the stream |
| `OwnedRun.NeverBackToTerm` | x86/recovery_supervisor.py:327-336 | Of the signals delivered, KILL are exactly those due from three fifths of the window on, the others are TERM and not before one fifth, and no TERM follows a KILL |
| `OwnedRun.TermAlone` | x86/recovery_supervisor.py:327-336 | For every window of five units or more, a cleanup that ends on TERM is in order |
| `OwnedRun.Supervisor.Refresh` | x86/recovery_supervisor.py:278-301 | A call that fails leaves its mark for good; otherwise the members were processes of the session since /proc was last listed and hold everyone who has been in it since, the listing was after the exit of the child if that is known, as it is when it had happened before, and the inventory holds the members while it has room |
| `OwnedRun.Supervisor.WaitForChildren` | x86/recovery_supervisor.py:293-300 | Nobody is waited for but a listed member that still is who it was, never the leader, and every such member is unless a call fails |
| `OwnedRun.Supervisor.Drain` | x86/recovery_supervisor.py:343-354 | Everything the pipe gives is added to its capture, and the end of the pipe ends the waiting |
| `OwnedRun.Supervisor.SignalMembers` | x86/recovery_supervisor.py:326-336 | When a signal is due, every member that keeps its identity has that very signal delivered, unless a call fails; the deliveries are all of that signal, to the session |
| `OwnedRun.Supervisor.Round` | x86/recovery_supervisor.py:315-336 | A round reaches everyone who has been in the session since any reading of the clock before the scan at which a signal was due, with that signal or with KILL |
| `OwnedRun.Supervisor.Turn` | x86/recovery_supervisor.py:314-336 | A turn begins the cleanup, at its own reading of the clock, exactly when the child has exited, a cancellation came or the time of the work is over; until then every reading was before that |
| `OwnedRun.DeadlineMet` | x86/recovery_supervisor.py:314-385 | A cleanup that began in time and reached everyone it had to has met the deadline as the readings of the clock define it |
| `OwnedRun.Supervisor.Work` | x86/recovery_supervisor.py:314-354 | The loop ends on every schedule; without an error it ends only when the time is over or, the cleanup begun, its window is over or nobody is left; the cleanup takes the child's exit, a cancellation or the end of the time of the work, and it began no later than the reading that follows the first one at which the time was over or, if nothing failed, the child was gone |
| `OwnedRun.Supervisor.CleanUp` | x86/recovery_supervisor.py:355-387 | The cleanup no error can skip ends; it is not given up before the end of its window unless a scan found nobody; without a failure the last scan is current; a window it opens itself is in time |
| `OwnedRun.Supervisor.RunOwned` | x86/recovery_supervisor.py:238-407 | Deliveries go only to the session and only once the cleanup has begun, each of the signal due when the clock was last read. The cleanup begins no later than the reading that follows one at which the time of the work was over, whatever fails, or, if nothing fails, at which the child was gone. If nothing fails, then for a cleanup that would begin only at that later reading: whoever has been in the session since a reading at which a signal would be due, two more readings following, has been sent it or KILL. A cancellation has a cleanup; an exceeded deadline is reported as it is met. Everyone reported, nobody twice, and everyone waited for was a process of the session during the run; the captures hold all that was read; complete means that the child had left the table before the last listing of /proc, that nobody in the session then has stayed in it, and that no call failed; if nothing fails, a known exit status and no session member from the last listing on are enough for it |
| `OwnedRun.FoldIntegrity` | x86/recovery_supervisor.py:756-765 | False exactly when some input is known to have changed, true exactly when all are known to be the same and both helpers finished |
| `UartEvidence.Occurrences` | x86/boot_evidence.py:92-115 | The search loops return the sorted, deduplicated evidence of the category |
| `UartEvidence.FoundFacts` | x86/boot_evidence.py:92-115 | Evidence is strictly ascending by offset, each entry a marker that is really there, one at each place a search stopped |
| `UartEvidence.HitsCover` | x86/boot_evidence.py:97-114 | A marker that occurs was found, or overlaps a copy of itself found before it |
| `UartEvidence.FirstOccurrence` | x86/boot_evidence.py:146-148 | A category's first entry is the true first occurrence of any of its markers, and there is one when any occurs |
| `UartEvidence.FirstStays` | x86/boot_evidence.py:146-148 | The first offset of a category whose markers do not start inside one another never moves as the log grows |
| `UartEvidence.Stage2Isolated` | x86/boot_evidence.py:35-44 | No Stage2 marker starts inside another; with XnuIsolated and UserspaceIsolated, so for the other two ordered categories |
| `UartEvidence.VerifiedMeans` | x86/boot_evidence.py:145-180 | A verified boot means a Darwin banner no userspace marker precedes, a userspace marker and the requested major; exactly then there is no blocker |
| `UartEvidence.HandoffsMean` | x86/boot_evidence.py:156-162 | Each handoff says that a marker of the first stage is preceded by none of the second, and that there is one of the second |
| `UartEvidence.TargetMeans` | x86/boot_evidence.py:149-153 | The majors are exactly those behind the banners; a requested one matches exactly if it is among them |
| `UartEvidence.BlockerMeans` | x86/boot_evidence.py:165-180 | What each blocker says of the transcript; no two of them can be true at once |
| `UartEvidence.Sticky` | x86/boot_evidence.py:145-163 | Once reported, iBoot, XNU, userspace and both handoffs stay for every requested major, with the same first offsets; so does the verdict when none was requested |
| `UartEvidence.SearchGrows` | x86/boot_evidence.py:69 | The first version match of a window stays the first when output is appended, longer only if it ended with the window |
| `UartEvidence.VerdictIsFinal` | x86/boot_evidence.py:105-108 | With a requested major a true verdict survives every continuation of the log if and only if that major stands behind a banner whose digits have ended or whose search window is full |
| `UartEvidence.VerdictTakenBack` | x86/boot_evidence.py:105-108 | A concrete log whose verified boot one more digit takes back |
| `HandoffGate.Report.ApplyGate` | x86/vmapple.py:2223-2273 | The gate writes its four fields from the report it found, or raises and leaves it as it was |
| `HandoffGate.BootNeedsEvidence` | x86/iboot_handoff.py:170-347 | The bit after the gate is true exactly when the report's own keys say so: scope, ordered markers, both observations, target kernel, intact inputs, a runtime, the direct way without DFU or DFU, Stage2 and the restore chain, no unsupported signature claim |
| `HandoffGate.RecoveryBootNeedsStage2` | x86/iboot_handoff.py:248-278 | A verified boot on the recovery path reports iBEC execution, an observation of Stage2, that DFU was called for, and an iBEC-ready transition or a finished transfer |
| `HandoffGate.DirectBootNeedsNoDfu` | x86/iboot_handoff.py:241-247 | A verified boot on the direct path says that DFU was not entered |
| `HandoffGate.DirectObservationDecides` | x86/iboot_handoff.py:118-147 | A direct boot with an observation of its own and no ordered markers in it is not verified, whatever else the report says |
| `HandoffGate.MarkerNames` | x86/iboot_handoff.py:77-94 | The entries that count as Darwin and as userspace markers, by name and offset |
| `HandoffGate.RecordMeans` | x86/iboot_handoff.py:296-347 | The record is valid exactly for reports in scope whose signature and boot claims are borne; its four claims are then exactly what the evidence bears, and none otherwise |
| `HandoffGate.BlockersMean` | x86/iboot_handoff.py:322-347 | The blockers of a valid record name exactly what is missing: a stage, the inputs, the runtime, the signature |
| `HandoffGate.ChainNeedsAllFive` | x86/vmapple.py:2259-2270 | The full chain is verified exactly when the direct boot's own evidence holds all five facts |
| `HandoffGate.RecoveryBootNeedsRestoreChain` | x86/iboot_handoff.py:279-292 | On the recovery path a restore chain that was not reported keeps the bit false, although the stage is optional |
| `HandoffGate.BothObservations` | x86/iboot_handoff.py:248-267 | The first recovery stage asks for both observations, as its blocker says, exactly on reports that call for the transfer only where neither is there without the other |
| `HandoffGate.VerifiedOnReadyOnly` | x86/iboot_handoff.py:248-267 | A concrete report whose bit is true although no DFU transfer was reported as finished; without any one of its twelve keys, Stage2 observation and iBEC execution among them, the bit is false |
| `HandoffGate.BitIgnoresClaims` | x86/vmapple.py:2252-2258 | No earlier claim and no earlier pass of the gate changes the bit |
| `HandoffGate.GateSettles` | x86/vmapple.py:2223-2273 | A second pass changes nothing at all, if and only if the first met no false claim |
| `HandoffGate.BareClaim` | x86/vmapple.py:2223-2273 | A report with nothing but the claim of a boot, which a second pass changes |
| `HandoffGate.OffsetsOrdered` | x86/iboot_handoff.py:97-115 | Comparing the two least offsets says that some Darwin entry is no later than every userspace entry |
| `HandoffGate.GateRaises` | x86/iboot_handoff.py:106-114 | On an in-scope report the gate raises exactly when a marker is a list or an object |
| `HandoffGate.GateRaisesOnce` | x86/iboot_handoff.py:106-114 | A concrete report on which it does |
| `TraceWindows.ReadTraceWindows` | x86/vmapple_tcg.py:97-111 | The windows are disjoint parts of the file, in order, that hold exactly min(size, limit) bytes |
| `TraceWindows.SampleMetadata` | x86/vmapple_tcg.py:114-123 | Reported as truncated exactly when fewer bytes were observed than there are |
| `TraceWindows.TraceLines` | x86/vmapple_tcg.py:126-135 | Yields in ascending order exactly the whole lines that end with a line feed or the file and that a window covers |
| `TraceWindows.OnlyLine` | x86/vmapple_tcg.py:129-134 | Within a window, from one line end to the next, only that stretch is a line of the file |
| `TraceWindows.WholeFile` | x86/vmapple_tcg.py:126-135 | Without a cut every line that ends with a line feed or the file is yielded |
| `BootPicker.BootPickerSession.Arm` | x86/boot_picker.py:240-248 | A start resets the session |
| `BootPicker.BootPickerSession.OnTick` | x86/boot_picker.py:258-268 | A tick expires an armed session after two seconds |
| `BootPicker.BootPickerSession.KeyEvent` | x86/boot_picker.py:270-315 | A key takes the session's step, and raises exactly when idle |
| `BootPicker.BootPickerSession.SelectEntry` | x86/boot_picker.py:317-336 | A pointer selection takes effect in the visible picker only |
| `BootPicker.RecoveryNeedsAlt` | x86/boot_picker.py:240-336 | In every run, Recovery, or a visible picker, implies an Alt press in the same session at most two seconds after its start |
| `BootPicker.DecidedStays` | x86/boot_picker.py:240-336 | Only a new start leaves selected and default, and the selection and the log stay with them |
| `BootPicker.LogDeterminesSession` | x86/boot_picker.py:240-336 | State, selection and highlighted entry of every run are read off its event log |
| `BootPicker.SelectionMatchesState` | x86/boot_picker.py:258-336 | A session has a selection exactly when decided; by default it is macOS, otherwise the highlighted entry |
| `BootPicker.TriggerMatchesState` | x86/boot_picker.py:240-336 | In every run the trigger tells how the session got into its state |
| `BootPicker.TimeoutDecides` | x86/boot_picker.py:258-268 | A tick two seconds after the start, or later, takes an armed session to macOS; an earlier one changes nothing |
| `BootPicker.KeysWhileArmed` | x86/boot_picker.py:270-300 | In an armed session Alt shows the picker up to and including two seconds; any key later boots macOS |
| `BootPicker.MovesAlternate` | x86/boot_picker.py:300-306 | Each move goes to the other entry, so any even number of them returns |
| `BootPicker.EnterAfterMoves` | x86/boot_picker.py:270-312 | Start, Alt in time, n moves, Enter: Recovery for odd n, macOS for even n |
| `PackageGraph.Closure` | Tools/nextcore_package_policy.py:204-212 | The worklist ends on every graph, finds exactly the reachable packages, and fails exactly when one of them has no node |
| `PackageGraph.ClosedHoldsReachable` | Tools/nextcore_package_policy.py:204-212 | A closed set that holds the start holds everything reachable |
| `PackageGraph.AllDifferent` | Tools/nextcore_package_policy.py:187-194 | Comparing a count with a set size rules out repetitions, and only them |
| `PackageGraph.ValidateMetadata` | Tools/nextcore_package_policy.py:185-216 | Accepts exactly the metadata with each owned package resolved once and locally, the right members, the feature on, all dependencies of the EFI package present, and the memory service among them |
| `PackageGraph.Revisions.Merge` | Tools/nextcore_package_policy.py:57-61 | Succeeds exactly when no URL ends up with two revisions, whatever was merged before |
| `PackageGraph.MergeOrderIrrelevant` | Tools/nextcore_package_policy.py:57-61 | The order of merging changes neither the verdict nor the table |

## Left out

- Hashes, Ed25519 and the JSON report: SHA-1/256/384/512 and signatures are uninterpreted functions; only digest lengths and "what was signed verifies" are assumed, and only in `Bundle`.
- Expat: `Plist` starts from the reported events; decoding, the XML declaration, the DOCTYPE and entity handlers are not modelled.
- `Im4p.ParseSpans`: the tool's reader of the same fields also decodes the type as ASCII, which is left out.
- `Bundle.CreateBundle`: path checks, stamps and the file system are one fault per call; a failed path check or unlink of the cleanup is counted, whichever exception it raises.
- `Bundle.StagedVerifies`: the configuration parser enters as a function from bytes to values, because the bytes-to-events step is expat's; the normaliser is `Config.Normalize`.
- `RecoveryTransport.Host.WaitState`: time is counted in whole milliseconds; that a sleep or select lasts at least one unit is what makes the loops end.
- `RecoveryTransport.Host.Control`: the guest bridge answers each packet with one frame no longer than a data stage; a guest that sends unsolicited frames is outside the device machine. Poll times above 250 ms are cut to that by the host, and the device may answer such an early poll with an error.
- `RecoveryTransport.Host.SendDfuFile`: the file is read once at the start and once for the closing digest; paths, report layout and the passive drain thread are left out.
- `RecoveryTransport.Host.ConfigureRecovery`: `probe` walks the same descriptors (section 9.5 of USB 2.0) without the recovery checks and is not modelled separately.
- `RestoreSequence.RunRestore`: manifest selection, file paths, the two-second pause and the deletion of outputs after an input change are left out; role names are an enumeration, so an unsupported name cannot be written down; the fixed steps are performed from a list.
- `OwnedRun.Supervisor.RunOwned`: the last reading of the pipes after the cleanup is left out; the sub-reaper and pidfd availability checks, the stop file and the pipe selector are reduced to free choices; a process leaves the table when it is reaped, so zombies count as present; thresholds are exact fractions where the code multiplies floats; an entry that cannot be parsed while the cleanup signals raises out of the code, where the model returns a result that is not complete.
- `OwnedRun.Capture.Add`: the running SHA-256 of the stream is left out.
- `UartEvidence.Occurrences`: graphics and installer categories use the same search and are not repeated; `HitsCover` is what holds of later copies of a marker, because overlapping copies are skipped.
- `HandoffGate.Report.ApplyGate`: report keys are an enumeration plus a catch-all, NaN is not a number here, and the wording of blockers is left out.
- `BootPicker.BootPickerSession.KeyEvent`: key names arrive in canonical form; case folding and whitespace removal are left out, and so are snapshots.
- `BootPicker.BootPickerSession.OnTick`: time is a real number, so float rounding at the two-second boundary is not modelled.
- `PackageGraph.ValidateMetadata`: path resolution is equality of manifest strings, and the name prefix test is a parameter.
- `dependency_revisions`, `module_manifests`, `validate_workspace`: checks of one table entry at a time that would only add easy members; only the merge they feed is modelled.
- Execution-mode policy, iBoot scope strings, boot-argument editing, QEMU launch, TSS requests, GUI, packaging, signing and catalog code: plumbing without a deep invariant.
- PE and GPT checks elsewhere in the repository: weaker repeats of the ELF argument.
