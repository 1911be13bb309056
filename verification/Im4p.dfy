/**
 The restore-role pipeline: the strict IM4P reader, the retagging step that makes a
 role match the official manifest, and the IMG4 envelope put around it.
 */
module Im4p {
  import opened Bytes
  import opened Der

  const MAX_TICKET: nat := 4 * 1024 * 1024

  datatype Spans = Spans(kindStart: nat, kindEnd: nat, payloadStart: nat, payloadEnd: nat, payload: Buffer)

  /** The elements laid end to end from position up to end. */
  function Fields(data: Buffer, position: nat, end: nat): (r: Result<seq<Element>>)
    requires position <= end <= |data|
    decreases end - position
  {
    if position == end then Ok([])
    else
      match Read(data, position, end)
      case Err(e) => Err(e)
      case Ok(field) =>
        match Fields(data, field.end, end)
        case Err(e) => Err(e)
        case Ok(rest) => Ok([field] + rest)
  }

  predicate IsWholeSequence(data: Buffer) {
    var outer := Read(data, 0, |data|);
    outer.Ok? && outer.value.tag == SEQUENCE && outer.value.end == |data|
  }

  function Classify(data: Buffer, fields: seq<Element>): (r: Result<Spans>)
    requires forall f | f in fields :: f.start <= f.end <= |data|
  {
    if |fields| < 4 then Err("IM4P is missing its type or payload")
    else if fields[0].tag != IA5_STRING || data[fields[0].start..fields[0].end] != IM4P then Err("Expected IM4P magic")
    else if fields[1].tag != IA5_STRING || fields[1].end - fields[1].start != 4 then
      Err("IM4P type is not a four-byte string")
    else if fields[2].tag != IA5_STRING || fields[3].tag != OCTET_STRING then
      Err("Unexpected IM4P version or payload field")
    else
      Ok(Spans(fields[1].start, fields[1].end, fields[3].start, fields[3].end,
               data[fields[3].start..fields[3].end]))
  }

  /** What `_im4p_spans` and `im4p_payload` return. */
  function Parse(data: Buffer): (r: Result<Spans>) {
    if !IsWholeSequence(data) then
      (match Read(data, 0, |data|)
       case Err(e) => Err(e)
       case Ok(_) => Err("Expected one complete IM4P sequence"))
    else
      match Fields(data, Read(data, 0, |data|).value.start, |data|)
      case Err(e) => Err(e)
      case Ok(fields) =>
        FieldsInOrder(data, Read(data, 0, |data|).value.start, |data|);
        Classify(data, fields)
  }

  /** `_im4p_spans`: the loop that collects the fields one by one. */
  method ParseSpans(data: Buffer) returns (r: Result<Spans>)
    ensures r == Parse(data)
  {
    var outer := Read(data, 0, |data|);
    if outer.Err? {
      return Err(outer.error);
    }
    if outer.value.tag != SEQUENCE || outer.value.end != |data| {
      return Err("Expected one complete IM4P sequence");
    }
    hide Read, Fields;
    var start := outer.value.start;
    var fields: seq<Element> := [];
    var position := start;
    NoField(data, |data|);
    if Fields(data, start, |data|).Ok? {
      FieldsInOrder(data, start, |data|);
      assert [] + Fields(data, start, |data|).value == Fields(data, start, |data|).value;
    }
    while position < |data|
      invariant start <= position <= |data|
      invariant forall f | f in fields :: f.start <= f.end <= |data|
      invariant Fields(data, start, |data|) == Behind(fields, Fields(data, position, |data|))
    {
      var field := Read(data, position, |data|);
      FirstField(data, position, |data|);
      if field.Err? {
        return Err(field.error);
      }
      BehindOneMore(fields, field.value, Fields(data, field.value.end, |data|));
      fields := fields + [field.value];
      position := field.value.end;
    }
    assert fields + [] == fields;
    r := Classify(data, fields);
  }

  /** The fields collected so far and the rest, if that can be split. */
  function Behind(fields: seq<Element>, rest: Result<seq<Element>>): Result<seq<Element>> {
    match rest
    case Err(e) => Err(e)
    case Ok(more) => Ok(fields + more)
  }

  lemma BehindOneMore(fields: seq<Element>, field: Element, rest: Result<seq<Element>>)
    ensures Behind(fields, Behind([field], rest)) == Behind(fields + [field], rest)
  {
    if rest.Ok? {
      assert fields + ([field] + rest.value) == fields + [field] + rest.value;
    }
  }

  lemma NoField(data: Buffer, end: nat)
    requires end <= |data|
    ensures Fields(data, end, end) == Ok([])
  {
  }

  lemma FirstField(data: Buffer, position: nat, end: nat)
    requires position < end <= |data|
    ensures Fields(data, position, end) ==
            match Read(data, position, end)
            case Err(e) => Err(e)
            case Ok(field) => Behind([field], Fields(data, field.end, end))
  {
  }

  /** The fields lie inside the container, in order, with room for a header before each. */
  lemma {:induction false} FieldsInOrder(data: Buffer, position: nat, end: nat)
    requires position <= end <= |data|
    requires Fields(data, position, end).Ok?
    ensures var fields := Fields(data, position, end).value;
            && (forall i | 0 <= i < |fields| :: position <= fields[i].start <= fields[i].end <= end)
            && (forall i, j | 0 <= i < j < |fields| :: fields[i].end < fields[j].start)
    decreases end - position
  {
    hide Read;
    if position < end {
      var first := Read(data, position, end).value;
      FieldsInOrder(data, first.end, end);
      var rest := Fields(data, first.end, end).value;
      var fields := Fields(data, position, end).value;
      forall i | 0 <= i < |rest| ensures fields[i + 1] == rest[i] && first.end < rest[i].start {
        FieldStartsPastHeader(data, first.end, end, i);
      }
    }
  }

  lemma {:induction false} FieldStartsPastHeader(data: Buffer, position: nat, end: nat, i: nat)
    requires position <= end <= |data|
    requires Fields(data, position, end).Ok? && i < |Fields(data, position, end).value|
    ensures position + 2 <= Fields(data, position, end).value[i].start
    decreases end - position
  {
    if i > 0 {
      FieldStartsPastHeader(data, Read(data, position, end).value.end, end, i - 1);
    }
  }

  /** The fields tile the container: each header begins where the last field ended, and the last field ends with it. */
  lemma {:induction false} FieldsTile(data: Buffer, position: nat, end: nat)
    requires position <= end <= |data|
    requires Fields(data, position, end).Ok?
    ensures var fields := Fields(data, position, end).value;
            && (if position == end then fields == [] else fields != [] && fields[|fields| - 1].end == end)
            && forall i | 0 <= i < |fields| ::
                 Read(data, if i == 0 then position else fields[i - 1].end, end) == Ok(fields[i])
    decreases end - position
  {
    hide Read;
    if position < end {
      var first := Read(data, position, end).value;
      FieldsTile(data, first.end, end);
      var rest := Fields(data, first.end, end).value;
      var fields := Fields(data, position, end).value;
      assert fields == [first] + rest;
      forall i | 0 <= i < |fields|
        ensures Read(data, if i == 0 then position else fields[i - 1].end, end) == Ok(fields[i])
      {
        if i > 0 {
          var j := i - 1;
          assert fields[i] == rest[j];
          assert Read(data, if j == 0 then first.end else rest[j - 1].end, end) == Ok(rest[j]);
        }
      }
    }
  }

  predicate InsideSomeField(fields: seq<Element>, low: nat, high: nat) {
    exists i :: 0 <= i < |fields| && fields[i].start <= low && high <= fields[i].end
  }

  /** Overwriting bytes inside one field's content, or before the first field, moves no field. */
  lemma {:induction false} FieldsIgnoreContent(data: Buffer, other: Buffer, position: nat, end: nat, low: nat,
                                               high: nat)
    requires position <= end <= |data| == |other|
    requires low <= high <= |data| && data[..low] == other[..low] && data[high..] == other[high..]
    requires Fields(data, position, end).Ok?
    requires high <= position || InsideSomeField(Fields(data, position, end).value, low, high)
    ensures Fields(other, position, end) == Fields(data, position, end)
    decreases end - position
  {
    hide Read;
    if position < end {
      var first := Read(data, position, end).value;
      var fields, rest := Fields(data, position, end).value, Fields(data, first.end, end).value;
      FieldsInOrder(data, position, end);
      assert fields == [first] + rest;
      if !(high <= position) {
        var i :| 0 <= i < |fields| && fields[i].start <= low && high <= fields[i].end;
        assert fields[0] == first;
        if i > 0 {
          assert fields[0].end < fields[i].start && rest[i - 1] == fields[i];
        }
      }
      SameHeader(data, other, position, first.start, low, high);
      ReadDependsOnHeader(data, other, position, end);
      FieldsIgnoreContent(data, other, first.end, end, low, high);
    }
  }

  /** Bytes before or behind the overwritten ones are what they were. */
  lemma SameHeader(data: Buffer, other: Buffer, from: nat, to: nat, low: nat, high: nat)
    requires from <= to <= |data| == |other| && low <= high <= |data|
    requires data[..low] == other[..low] && data[high..] == other[high..]
    requires high <= from || to <= low
    ensures other[from..to] == data[from..to]
  {
    if high <= from {
      assert data[high..] == data[high..|data|] && other[high..] == other[high..|data|];
      SliceOfSlice(data, high, |data|, from - high, to - high);
      SliceOfSlice(other, high, |data|, from - high, to - high);
    } else {
      SliceOfSlice(data, 0, low, from, to);
      SliceOfSlice(other, 0, low, from, to);
    }
  }

  lemma ParsedFields(data: Buffer)
    requires Parse(data).Ok?
    ensures var outer := Read(data, 0, |data|);
            && IsWholeSequence(data)
            && Fields(data, outer.value.start, |data|).Ok?
            && var fields := Fields(data, outer.value.start, |data|).value;
            && |fields| >= 4
            && var p := Parse(data).value;
            && outer.value.start < fields[0].start < fields[0].end < p.kindStart == fields[1].start
            && p.kindEnd == fields[1].end == p.kindStart + 4
            && p.kindEnd < fields[2].start <= fields[2].end < p.payloadStart == fields[3].start
            && p.payloadStart <= p.payloadEnd == fields[3].end <= |data|
            && p.payload == data[p.payloadStart..p.payloadEnd]
            && fields[0].tag == IA5_STRING && data[fields[0].start..fields[0].end] == IM4P
            && fields[0] == Read(data, outer.value.start, |data|).value
  {
    var start := Read(data, 0, |data|).value.start;
    FieldsInOrder(data, start, |data|);
    FieldStartsPastHeader(data, start, |data|, 0);
  }

  /** The four type bytes of a parsed role. */
  function Kind(data: Buffer): Buffer
    requires Parse(data).Ok?
  {
    ParsedFields(data);
    data[Parse(data).value.kindStart..Parse(data).value.kindEnd]
  }

  /** The four type bytes of a parsed role replaced by kind. */
  function Retag(data: Buffer, kind: Buffer): (out: Buffer)
    requires Parse(data).Ok? && |kind| == 4
  {
    ParsedFields(data);
    var p := Parse(data).value;
    data[..p.kindStart] + kind + data[p.kindEnd..]
  }

  /**
   Retagging keeps the length, changes only the four type bytes, re-parses to the same
   spans and the same payload, and a second retagging changes nothing.
   */
  lemma RetagKeepsStructure(data: Buffer, kind: Buffer)
    requires Parse(data).Ok? && |kind| == 4
    ensures var p := Parse(data).value;
            var out := Retag(data, kind);
            && |out| == |data|
            && p.kindEnd == p.kindStart + 4 <= |data|
            && out[..p.kindStart] == data[..p.kindStart]
            && out[p.kindStart..p.kindEnd] == kind
            && out[p.kindEnd..] == data[p.kindEnd..]
            && Parse(out) == Parse(data)
            && Retag(out, kind) == out
  {
    ParsedFields(data);
    var p := Parse(data).value;
    var out := Retag(data, kind);
    SplitThree(data[..p.kindStart], kind, data[p.kindEnd..]);
    var start := Read(data, 0, |data|).value.start;
    assert out[0..start] == data[0..start] by {
      SliceOfSlice(data, 0, p.kindStart, 0, start);
      SliceOfSlice(out, 0, p.kindStart, 0, start);
    }
    ReadDependsOnHeader(data, out, 0, |data|);
    var fields := Fields(data, start, |data|).value;
    FieldsIgnoreContent(data, out, start, |data|, p.kindStart, p.kindEnd);
    assert out[fields[0].start..fields[0].end] == data[fields[0].start..fields[0].end] by {
      SliceOfSlice(data, 0, p.kindStart, fields[0].start, fields[0].end);
      SliceOfSlice(out, 0, p.kindStart, fields[0].start, fields[0].end);
    }
    assert out[p.payloadStart..p.payloadEnd] == p.payload by {
      SliceOfSlice(data, p.kindEnd, |data|, p.payloadStart - p.kindEnd, p.payloadEnd - p.kindEnd);
      SliceOfSlice(out, p.kindEnd, |data|, p.payloadStart - p.kindEnd, p.payloadEnd - p.kindEnd);
    }
  }

  /** One element to be written: its tag and its content. */
  datatype Part = Part(tag: Byte, content: Buffer) {
    predicate Readable() { LowTag(tag) && |content| < 0x1_0000_0000 }
  }

  function Laid(parts: seq<Part>): Buffer
    requires forall p | p in parts :: p.Readable()
  {
    if parts == [] then []
    else
      assert parts[0].Readable();
      Encode(parts[0].tag, parts[0].content) + Laid(parts[1..])
  }

  /** Elements that were written end to end are found again, each with its tag and its content. */
  lemma {:induction false} FieldsReadLaid(data: Buffer, position: nat, parts: seq<Part>)
    requires forall p | p in parts :: p.Readable()
    requires position <= |data| && data[position..] == Laid(parts)
    ensures Fields(data, position, |data|).Ok?
    ensures var fields := Fields(data, position, |data|).value;
            && |fields| == |parts|
            && forall i | 0 <= i < |parts| ::
                 && fields[i].tag == parts[i].tag && fields[i].start <= fields[i].end <= |data|
                 && data[fields[i].start..fields[i].end] == parts[i].content
    decreases |parts|
  {
    hide Read, Encode;
    if parts != [] {
      assert parts[0].Readable();
      var first := Encode(parts[0].tag, parts[0].content);
      EncodedIsLong(parts[0].tag, parts[0].content);
      assert data[position..position + |first|] == first by {
        assert data[position..][..|first|] == first;
      }
      ReadEncode(data, position, |data|, parts[0].tag, parts[0].content);
      assert data[position + |first|..] == data[position..][|first|..] == Laid(parts[1..]);
      FieldsReadLaid(data, position + |first|, parts[1..]);
    }
  }

  lemma EncodedIsLong(tag: Byte, content: Buffer)
    requires |content| <= MAX_BUFFER
    ensures |Encode(tag, content)| >= 1 + |content|
  {
  }

  /** The contents of a role: the magic, its type, a version, the payload, and whatever else follows. */
  function RoleParts(kind: Buffer, version: Buffer, payload: Buffer, more: seq<Part>): seq<Part> {
    [Part(IA5_STRING, IM4P), Part(IA5_STRING, kind), Part(IA5_STRING, version), Part(OCTET_STRING, payload)] + more
  }

  /** A role that is written field by field reads back with its type and its payload, with or without further fields. */
  lemma ComposedRoleParses(kind: Buffer, version: Buffer, payload: Buffer, more: seq<Part>)
    requires |kind| == 4 && forall p | p in RoleParts(kind, version, payload, more) :: p.Readable()
    requires |Laid(RoleParts(kind, version, payload, more))| < 0x1_0000_0000
    ensures var data := Encode(SEQUENCE, Laid(RoleParts(kind, version, payload, more)));
            Parse(data).Ok? && Parse(data).value.payload == payload && Kind(data) == kind
  {
    hide Read, Encode, Fields, Laid;
    var parts := RoleParts(kind, version, payload, more);
    var contents := Laid(parts);
    var data := Encode(SEQUENCE, contents);
    OuterReads(data, contents);
    EncodedIsLong(SEQUENCE, contents);
    EndsWithContent(SEQUENCE, contents);
    var start := |data| - |contents|;
    FieldsReadLaid(data, start, parts);
    var fields := Fields(data, start, |data|).value;
    assert parts[0] == Part(IA5_STRING, IM4P) && parts[1] == Part(IA5_STRING, kind);
    assert parts[2] == Part(IA5_STRING, version) && parts[3] == Part(OCTET_STRING, payload);
    FieldsInOrder(data, start, |data|);
    assert |data[fields[1].start..fields[1].end]| == 4;
  }

  lemma EndsWithContent(tag: Byte, content: Buffer)
    requires |content| <= MAX_BUFFER
    ensures var s := Encode(tag, content); |s| > |content| && s[|s| - |content|..] == content
  {
  }

  const KRNL: Buffer := [0x6B, 0x72, 0x6E, 0x6C]
  const RKRN: Buffer := [0x72, 0x6B, 0x72, 0x6E]
  const DTRE: Buffer := [0x64, 0x74, 0x72, 0x65]
  const RDTR: Buffer := [0x72, 0x64, 0x74, 0x72]
  const TRST: Buffer := [0x74, 0x72, 0x73, 0x74]
  const RTSC: Buffer := [0x72, 0x74, 0x73, 0x63]
  const LOGO: Buffer := [0x6C, 0x6F, 0x67, 0x6F]
  const RLGO: Buffer := [0x72, 0x6C, 0x67, 0x6F]
  const RDSK: Buffer := [0x72, 0x64, 0x73, 0x6B]

  /** The type a role file may carry, and the type the restore chain requires. */
  function RoleTags(role: string): (r: Option<(Buffer, Buffer)>)
    ensures r.Some? ==> |r.value.1| == 4
  {
    match role
    case "RestoreKernelCache" => Some((KRNL, RKRN))
    case "RestoreDeviceTree" => Some((DTRE, RDTR))
    case "RestoreTrustCache" => Some((TRST, RTSC))
    case "RestoreLogo" => Some((LOGO, RLGO))
    case "RestoreRamDisk" => Some((RDSK, RDSK))
    case _ => None
  }

  function DigestAlgorithm(digest: Buffer): (r: Option<string>) {
    match |digest|
    case 20 => Some("sha1")
    case 32 => Some("sha256")
    case 48 => Some("sha384")
    case _ => None
  }

  /** `normalize_role` on the bytes of the source file; hash is the named digest function. */
  function NormalizeRole(raw: Buffer, role: string, expectedDigest: Buffer,
                         hash: (string, Buffer) -> Buffer): (r: Result<Buffer>)
  {
    match RoleTags(role)
    case None => Err("Unsupported restore role")
    case Some((permitted, required)) =>
      match Parse(raw)
      case Err(e) => Err(e)
      case Ok(p) =>
        ParsedFields(raw);
        var actual := raw[p.kindStart..p.kindEnd];
        if actual != permitted && actual != required then Err("unexpected IM4P type")
        else
          var normalized := if actual == required then raw else raw[..p.kindStart] + required + raw[p.kindEnd..];
          match DigestAlgorithm(expectedDigest)
          case None => Err("Unsupported official restore-role digest")
          case Some(algorithm) =>
            if hash(algorithm, normalized) != expectedDigest then
              Err("does not match the official BuildManifest digest")
            else
              RetagKeepsStructure(raw, required);
              if normalized[p.payloadStart..p.payloadEnd] != p.payload then
                Err("payload changed while normalizing metadata")
              else Ok(normalized)
  }

  /**
   A normalized role is its source with at most the four type bytes changed, reads back to
   the same spans and payload, matches the official digest, and normalizing it again returns
   it unchanged. The payload check after retagging never fires.
   */
  lemma NormalizeRoleSound(raw: Buffer, role: string, digest: Buffer, hash: (string, Buffer) -> Buffer)
    requires RoleTags(role).Some? && Parse(raw).Ok?
    ensures var required := RoleTags(role).value.1;
            var out := NormalizeRole(raw, role, digest, hash);
            && (out.Ok? ==>
                  && out.value == Retag(raw, required)
                  && |out.value| == |raw|
                  && Parse(out.value) == Parse(raw)
                  && NormalizeRole(out.value, role, digest, hash) == out)
            && (out.Ok? <==>
                  && Kind(raw) in {RoleTags(role).value.0, required}
                  && DigestAlgorithm(digest).Some?
                  && hash(DigestAlgorithm(digest).value, Retag(raw, required)) == digest)
  {
    var required := RoleTags(role).value.1;
    var p := Parse(raw).value;
    ParsedFields(raw);
    RetagKeepsStructure(raw, required);
    var out := Retag(raw, required);
    if raw[p.kindStart..p.kindEnd] == required {
      assert raw == raw[..p.kindStart] + raw[p.kindStart..p.kindEnd] + raw[p.kindEnd..];
    }
    assert out[p.payloadStart..p.payloadEnd] == p.payload by { ParsedFields(out); }
  }

  /** The bytes of four letters in ASCII. */
  function Letters(text: string): (s: Buffer)
    requires |text| == 4 && forall i | 0 <= i < 4 :: text[i] < 128 as char
    ensures |s| == 4
  {
    [text[0] as int, text[1] as int, text[2] as int, text[3] as int]
  }

  /** The types, by their letters. */
  lemma RoleTypes()
    ensures RoleTags("RestoreKernelCache") == Some((Letters("krnl"), Letters("rkrn")))
    ensures RoleTags("RestoreDeviceTree") == Some((Letters("dtre"), Letters("rdtr")))
    ensures RoleTags("RestoreTrustCache") == Some((Letters("trst"), Letters("rtsc")))
    ensures RoleTags("RestoreLogo") == Some((Letters("logo"), Letters("rlgo")))
    ensures RoleTags("RestoreRamDisk") == Some((Letters("rdsk"), Letters("rdsk")))
  {
  }

  lemma MagicLetters()
    ensures IM4P == Letters("IM4P") && IM4M == Letters("IM4M") && IMG4 == Letters("IMG4")
    ensures IBSS == Letters("ibss") && IBEC == Letters("ibec")
  {
  }

  /** What was prepared for one role is refused for every other one. */
  lemma RolesApart(raw: Buffer, role: string, digest: Buffer, other: string, otherDigest: Buffer,
                   hash: (string, Buffer) -> Buffer)
    requires NormalizeRole(raw, role, digest, hash).Ok? && other != role
    ensures NormalizeRole(NormalizeRole(raw, role, digest, hash).value, other, otherDigest, hash).Err?
  {
    NormalizeRoleSound(raw, role, digest, hash);
    var prepared, required := NormalizeRole(raw, role, digest, hash).value, RoleTags(role).value.1;
    RetagKeepsStructure(raw, required);
    assert Kind(prepared) == required;
    if RoleTags(other).Some? {
      NormalizeRoleSound(prepared, other, otherDigest, hash);
      TypesApart(role, other);
    }
  }

  lemma TypesApart(role: string, other: string)
    requires role != other && RoleTags(role).Some? && RoleTags(other).Some?
    ensures RoleTags(role).value.1 !in {RoleTags(other).value.0, RoleTags(other).value.1}
  {
    assert KRNL[0] == 0x6B && RKRN[1] == 0x6B && DTRE[0] == 0x64 && RDTR[1] == 0x64 && RDTR[2] == 0x74;
    assert TRST[0] == 0x74 && RTSC[1] == 0x74 && LOGO[0] == 0x6C && RLGO[1] == 0x6C && RDSK[2] == 0x73;
    assert RDSK[1] == 0x64 && RKRN[0] == 0x72 && RDTR[0] == 0x72 && RTSC[0] == 0x72 && RLGO[0] == 0x72;
  }

  /** What every wrapping step builds around an unchanged IM4P and an unchanged ticket. */
  function EnvelopeContents(payload: Buffer, ticket: Buffer): (s: Buffer)
    requires |ticket| <= MAX_BUFFER
  {
    Encode(IA5_STRING, IMG4) + payload + Encode(CONTEXT_0, ticket)
  }

  function Envelope(payload: Buffer, ticket: Buffer): (s: Buffer)
    requires |ticket| <= MAX_BUFFER && |EnvelopeContents(payload, ticket)| <= MAX_BUFFER
  {
    Encode(SEQUENCE, EnvelopeContents(payload, ticket))
  }

  /** `wrap_role`, with the size limits under which its files are opened. */
  function WrapRole(payload: Buffer, ticket: Buffer): (r: Result<Buffer>) {
    if |payload| > MAX_RECOVERY || |ticket| > MAX_TICKET then Err("file exceeds its limit")
    else if Content(payload, IM4P).Err? then Err(Content(payload, IM4P).error)
    else if Content(ticket, IM4M).Err? then Err(Content(ticket, IM4M).error)
    else
      EnvelopeSize(payload, ticket);
      Ok(Envelope(payload, ticket))
  }

  const IBSS: Buffer := [0x69, 0x62, 0x73, 0x73]
  const IBEC: Buffer := [0x69, 0x62, 0x65, 0x63]

  /** `wrap_firmware` for the iBSS and iBEC stages. */
  function WrapFirmware(payload: Buffer, ticket: Buffer, component: string): (r: Result<Buffer>)
    requires |ticket| <= MAX_BUFFER && |EnvelopeContents(payload, ticket)| <= MAX_BUFFER
  {
    if component != "iBSS" && component != "iBEC" then Err("Only original iBSS and iBEC components are supported")
    else
      var kind := if component == "iBSS" then IBSS else IBEC;
      var contents := Content(payload, IM4P);
      if contents.Err? then Err(contents.error)
      else if !StartsWith(contents.value, Encode(IA5_STRING, IM4P) + Encode(IA5_STRING, kind)) then
        Err("Original IM4P does not match the selected component")
      else if Content(ticket, IM4M).Err? then Err(Content(ticket, IM4M).error)
      else Ok(Envelope(payload, ticket))
  }

  /** `wrap_img4` of the input-preparation tool. */
  function WrapImg4(payload: Buffer, ticket: Buffer): (r: Result<Buffer>)
    requires |ticket| <= MAX_BUFFER && |EnvelopeContents(payload, ticket)| <= MAX_BUFFER
  {
    if !HasMagic(payload, IM4P) || !HasMagic(ticket, IM4M) then Err("expected magic")
    else Ok(Envelope(payload, ticket))
  }

  lemma EnvelopeSize(payload: Buffer, ticket: Buffer)
    requires |payload| <= MAX_RECOVERY && |ticket| <= MAX_TICKET
    ensures |EnvelopeContents(payload, ticket)| < 0x1_0000_0000
  {
    if |ticket| >= 128 {
      CountFits(|ticket|);
    }
  }

  /**
   The strict reader sees in s exactly three fields: the IMG4 magic, the payload unchanged
   as one sequence, and [0] holding the ticket unchanged.
   */
  predicate ReadsAsEnvelope(s: Buffer, payload: Buffer, ticket: Buffer) {
    && IsWholeSequence(s)
    && var start := Read(s, 0, |s|).value.start;
    && Fields(s, start, |s|).Ok?
    && var fields := Fields(s, start, |s|).value;
    && |fields| == 3
    && (FieldsInOrder(s, start, |s|);
        && fields[0].tag == IA5_STRING && s[fields[0].start..fields[0].end] == IMG4
        && fields[1].tag == SEQUENCE && s[fields[0].end..fields[1].end] == payload
        && fields[2].tag == CONTEXT_0 && s[fields[2].start..fields[2].end] == ticket)
  }

  lemma {:induction false} ThreeFields(s: Buffer, start: nat, a: Element, b: Element, c: Element)
    requires start < |s|
    requires Read(s, start, |s|) == Ok(a) && a.end < |s|
    requires Read(s, a.end, |s|) == Ok(b) && b.end < |s|
    requires Read(s, b.end, |s|) == Ok(c) && c.end == |s|
    ensures Fields(s, start, |s|) == Ok([a, b, c])
  {
    assert Fields(s, c.end, |s|) == Ok([]);
    assert Fields(s, b.end, |s|) == Ok([c] + []);
    assert Fields(s, a.end, |s|) == Ok([b] + ([c] + []));
    assert [a] + ([b] + ([c] + [])) == [a, b, c];
  }

  /** A shorter limit that still covers the element reads the same element. */
  lemma ReadWithTighterLimit(data: Buffer, offset: nat, limit: nat, tighter: nat)
    requires tighter <= limit <= |data|
    requires Read(data, offset, limit).Ok? && Read(data, offset, limit).value.end <= tighter
    ensures Read(data, offset, tighter) == Read(data, offset, limit)
  {
  }

  lemma EnvelopeLayout(payload: Buffer, ticket: Buffer)
    requires |ticket| <= MAX_BUFFER && |EnvelopeContents(payload, ticket)| <= MAX_BUFFER
    ensures var s := Envelope(payload, ticket);
            var contents := EnvelopeContents(payload, ticket);
            var magic := Encode(IA5_STRING, IMG4);
            var start := |s| - |contents|;
            && 0 < start && |magic| == 6 && |ticket| < |contents|
            && start + 6 + |payload| + |Encode(CONTEXT_0, ticket)| == |s|
            && s[start..start + 6] == magic
            && s[start + 6..start + 6 + |payload|] == payload
            && s[start + 6 + |payload|..] == Encode(CONTEXT_0, ticket)
  {
    assert |Encode(IA5_STRING, IMG4)| == 6;
    assert |ticket| < |Encode(CONTEXT_0, ticket)|;
    hide LengthBytes;
    var s := Envelope(payload, ticket);
    var contents := EnvelopeContents(payload, ticket);
    var start := |s| - |contents|;
    assert s == s[..start] + contents;
    assert s[start..] == contents;
    SplitThree(Encode(IA5_STRING, IMG4), payload, Encode(CONTEXT_0, ticket));
    SliceOfSlice(s, start, |s|, 0, 6);
    SliceOfSlice(s, start, |s|, 6, 6 + |payload|);
    SliceOfSlice(s, start, |s|, 6 + |payload|, |contents|);
  }

  /**
   The envelope reads back as its three parts exactly when the payload carries a minimal
   outer length and the contents stay below 2^32 bytes. The looser magic check that the two
   wrapping steps make does not ensure the first of these.
   */
  lemma EnvelopeReadsBack(payload: Buffer, ticket: Buffer)
    requires |ticket| <= MAX_BUFFER && |EnvelopeContents(payload, ticket)| <= MAX_BUFFER
    requires |Envelope(payload, ticket)| <= MAX_BUFFER
    requires Content(payload, IM4P).Ok?
    ensures ReadsAsEnvelope(Envelope(payload, ticket), payload, ticket)
            <==> MinimalOuterLength(payload) && |EnvelopeContents(payload, ticket)| < 0x1_0000_0000
  {
    hide Read, Fields, MinimalOuterLength, FromBE, Encode, EnvelopeContents, Content;
    var s := Envelope(payload, ticket);
    var contents := EnvelopeContents(payload, ticket);
    var start := |s| - |contents|;
    EnvelopeLayout(payload, ticket);
    ContentIsLong(payload, IM4P);
    OuterReads(s, contents);
    if |contents| < 0x1_0000_0000 {
      InnerReads(s, start, payload, ticket);
    }
  }

  lemma ContentIsLong(payload: Buffer, magic: Buffer)
    requires |magic| <= MAX_BUFFER && Content(payload, magic).Ok?
    ensures |payload| >= 3
  {
  }

  lemma OuterReads(s: Buffer, contents: Buffer)
    requires |contents| <= MAX_BUFFER && s == Encode(SEQUENCE, contents)
    ensures if |contents| < 0x1_0000_0000 then Read(s, 0, |s|) == Ok(Element(SEQUENCE, |s| - |contents|, |s|))
            else Read(s, 0, |s|).Err?
  {
    assert s[0..|s|] == s;
    ReadEncode(s, 0, |s|, SEQUENCE, contents);
  }

  /** With the three parts laid from start on, only the payload's own header can stop the reader. */
  lemma InnerReads(s: Buffer, start: nat, payload: Buffer, ticket: Buffer)
    requires |ticket| < 0x1_0000_0000 && |s| <= MAX_BUFFER
    requires 0 < start && start + 6 + |payload| + |Encode(CONTEXT_0, ticket)| == |s|
    requires s[start..start + 6] == Encode(IA5_STRING, IMG4)
    requires s[start + 6..start + 6 + |payload|] == payload
    requires s[start + 6 + |payload|..] == Encode(CONTEXT_0, ticket)
    requires Read(s, 0, |s|) == Ok(Element(SEQUENCE, start, |s|))
    requires Content(payload, IM4P).Ok?
    ensures ReadsAsEnvelope(s, payload, ticket) <==> MinimalOuterLength(payload)
  {
    hide Read, Fields, Encode, Content, MinimalOuterLength;
    var magicEnd, payloadEnd := start + 6, start + 6 + |payload|;
    MagicAndTicketRead(s, start, payloadEnd, ticket);
    PayloadInEnvelope(s, magicEnd, payload);
    if ReadsAsEnvelope(s, payload, ticket) {
      SecondField(s, start);
    }
    if Read(s, magicEnd, |s|).Ok? && Read(s, magicEnd, |s|).value.end == payloadEnd {
      ThreeFields(s, start, Read(s, start, |s|).value, Read(s, magicEnd, |s|).value, Read(s, payloadEnd, |s|).value);
    }
  }

  lemma MagicAndTicketRead(s: Buffer, start: nat, payloadEnd: nat, ticket: Buffer)
    requires |ticket| < 0x1_0000_0000
    requires start + 6 <= payloadEnd && payloadEnd + |Encode(CONTEXT_0, ticket)| == |s|
    requires s[start..start + 6] == Encode(IA5_STRING, IMG4)
    requires s[payloadEnd..] == Encode(CONTEXT_0, ticket)
    ensures Read(s, start, |s|).Ok? && Read(s, payloadEnd, |s|).Ok?
    ensures var magic := Read(s, start, |s|).value;
            magic.tag == IA5_STRING && magic.end == start + 6 && s[magic.start..magic.end] == IMG4
    ensures var sealed := Read(s, payloadEnd, |s|).value;
            sealed.tag == CONTEXT_0 && sealed.end == |s| && s[sealed.start..sealed.end] == ticket
  {
    hide Encode, Read;
    ReadEncode(s, start, |s|, IA5_STRING, IMG4);
    assert s[payloadEnd..payloadEnd + |Encode(CONTEXT_0, ticket)|] == s[payloadEnd..];
    ReadEncode(s, payloadEnd, |s|, CONTEXT_0, ticket);
  }

  lemma SecondField(s: Buffer, start: nat)
    requires start <= |s| && Fields(s, start, |s|).Ok? && |Fields(s, start, |s|).value| == 3
    ensures Read(s, start, |s|) == Ok(Fields(s, start, |s|).value[0])
    ensures Read(s, Fields(s, start, |s|).value[0].end, |s|) == Ok(Fields(s, start, |s|).value[1])
  {
    var rest := Fields(s, Read(s, start, |s|).value.end, |s|).value;
    assert Fields(s, start, |s|).value == [Read(s, start, |s|).value] + rest;
  }

  lemma PayloadInEnvelope(s: Buffer, offset: nat, payload: Buffer)
    requires |s| <= MAX_BUFFER && offset + |payload| <= |s|
    requires s[offset..offset + |payload|] == payload
    requires Content(payload, IM4P).Ok?
    ensures MinimalOuterLength(payload) <==>
            && Read(s, offset, |s|).Ok?
            && Read(s, offset, |s|).value.tag == SEQUENCE
            && Read(s, offset, |s|).value.end == offset + |payload|
  {
    MinimalMeansWhole(payload);
    WholeSequenceInside(s, offset, payload);
  }

  lemma WholeSequenceInside(s: Buffer, offset: nat, part: Buffer)
    requires offset + |part| <= |s|
    requires s[offset..offset + |part|] == part
    ensures IsWholeSequence(part) <==>
            && Read(s, offset, |s|).Ok?
            && Read(s, offset, |s|).value.tag == SEQUENCE
            && Read(s, offset, |s|).value.end == offset + |part|
  {
    hide Read;
    ReadInSlice(s, offset, offset + |part|, 0);
    if IsWholeSequence(part) {
      ReadWithWiderLimit(s, offset, offset + |part|, |s|);
    } else if Read(s, offset, |s|).Ok? && Read(s, offset, |s|).value.end == offset + |part| {
      ReadWithTighterLimit(s, offset, |s|, offset + |part|);
    }
  }

  lemma ReadWithWiderLimit(data: Buffer, offset: nat, limit: nat, wider: nat)
    requires limit <= wider <= |data|
    requires Read(data, offset, limit).Ok?
    ensures Read(data, offset, wider) == Read(data, offset, limit)
  {
  }

  /** On a payload the looser check takes, a minimal outer length is all the strict reader asks for. */
  lemma MinimalMeansWhole(payload: Buffer)
    requires |payload| <= MAX_BUFFER
    requires Content(payload, IM4P).Ok?
    ensures MinimalOuterLength(payload) <==> IsWholeSequence(payload)
  {
    StrictIsLooseAndMinimal(payload, IM4P);
    if IsWholeSequence(payload) {
      MagicAtStart(payload, Read(payload, 0, |payload|).value.start, IM4P);
    }
  }

  /** A parsed role passes the looser check and has a minimal outer length. */
  lemma ParsedRoleHasMagic(data: Buffer)
    requires |data| <= MAX_BUFFER
    requires Parse(data).Ok?
    ensures HasMagic(data, IM4P)
    ensures Content(data, IM4P).Ok? && MinimalOuterLength(data)
  {
    ParsedFields(data);
    StrictIsLooseAndMinimal(data, IM4P);
  }

  /**
   The whole pipeline is total: every role file within the size limit that normalizes can be
   wrapped with every ticket the looser check takes, and the strict reader then finds the
   magic, the normalized role and the ticket, all unchanged.
   */
  lemma PipelineTotal(raw: Buffer, role: string, digest: Buffer, hash: (string, Buffer) -> Buffer, ticket: Buffer)
    requires |raw| <= MAX_RECOVERY && |ticket| <= MAX_TICKET
    requires NormalizeRole(raw, role, digest, hash).Ok?
    ensures var prepared := NormalizeRole(raw, role, digest, hash).value;
            var wrapped := WrapRole(prepared, ticket);
            && (wrapped.Ok? <==> Content(ticket, IM4M).Ok?)
            && (wrapped.Ok? ==> ReadsAsEnvelope(wrapped.value, prepared, ticket))
  {
    NormalizeRoleSound(raw, role, digest, hash);
    var prepared := NormalizeRole(raw, role, digest, hash).value;
    ParsedRoleHasMagic(prepared);
    EnvelopeSize(prepared, ticket);
    var contents := EnvelopeContents(prepared, ticket);
    CountFits(|contents|);
    EnvelopeReadsBack(prepared, ticket);
  }

  /** The strict wrapper of the tools never produces an envelope that fails to read back below 2^32 bytes. */
  lemma StrictWrapperReadsBack(payload: Buffer, ticket: Buffer)
    requires |payload| <= MAX_RECOVERY && |ticket| <= MAX_TICKET
    ensures |EnvelopeContents(payload, ticket)| <= MAX_BUFFER
    ensures WrapImg4(payload, ticket).Ok? ==> ReadsAsEnvelope(WrapImg4(payload, ticket).value, payload, ticket)
  {
    EnvelopeSize(payload, ticket);
    if WrapImg4(payload, ticket).Ok? {
      StrictIsLooseAndMinimal(payload, IM4P);
      CountFits(|EnvelopeContents(payload, ticket)|);
      EnvelopeReadsBack(payload, ticket);
    }
  }

  /**
   A wrapped firmware image reads back exactly when its payload has a minimal outer length, and a
   payload that parses as a role then carries the type of the selected component.
   */
  lemma FirmwareReadsBack(payload: Buffer, ticket: Buffer, component: string)
    requires |payload| <= MAX_RECOVERY && |ticket| <= MAX_TICKET && |EnvelopeContents(payload, ticket)| <= MAX_BUFFER
    requires WrapFirmware(payload, ticket, component).Ok?
    ensures ReadsAsEnvelope(WrapFirmware(payload, ticket, component).value, payload, ticket)
            <==> MinimalOuterLength(payload)
    ensures Parse(payload).Ok? ==> Kind(payload) == if component == "iBSS" then IBSS else IBEC
  {
    hide ReadsAsEnvelope, MinimalOuterLength, Parse;
    EnvelopeSize(payload, ticket);
    CountFits(|EnvelopeContents(payload, ticket)|);
    EnvelopeReadsBack(payload, ticket);
    if Parse(payload).Ok? {
      TypeAtStart(payload, if component == "iBSS" then IBSS else IBEC);
    }
  }

  lemma TypeAtStart(data: Buffer, kind: Buffer)
    requires Parse(data).Ok? && |kind| == 4 && Content(data, IM4P).Ok?
    requires StartsWith(Content(data, IM4P).value, Encode(IA5_STRING, IM4P) + Encode(IA5_STRING, kind))
    ensures Kind(data) == kind
  {
    hide Read, Encode, Content, Classify;
    ParsedFields(data);
    var start := Read(data, 0, |data|).value.start;
    var content := data[start..];
    var prefix := Encode(IA5_STRING, IM4P) + Encode(IA5_STRING, kind);
    FourByteString(IM4P);
    FourByteString(kind);
    ContentIsTail(data, IM4P);
    assert content[..12] == prefix;
    assert content[1] == prefix[1] == 4 && content[7] == prefix[7] == 4;
    FieldsTile(data, start, |data|);
    var fields := Fields(data, start, |data|).value;
    ShortHeader(data, start);
    ShortHeader(data, start + 6);
    assert data[start + 8..start + 12] == content[8..12] == prefix[8..12] == kind;
  }

  lemma FourByteString(text: Buffer)
    requires |text| == 4
    ensures Encode(IA5_STRING, text) == [IA5_STRING, 4] + text
  {
  }

  lemma ShortHeader(data: Buffer, at: nat)
    requires at + 2 <= |data| && data[at + 1] < 128 && Read(data, at, |data|).Ok?
    ensures Read(data, at, |data|).value == Element(data[at], at + 2, at + 2 + data[at + 1])
  {
    hide FromBE;
  }

  lemma ContentIsTail(data: Buffer, magic: Buffer)
    requires |magic| <= MAX_BUFFER && Content(data, magic).Ok? && Read(data, 0, |data|).Ok?
    ensures Read(data, 0, |data|).value.start <= |data|
    ensures Content(data, magic).value == data[Read(data, 0, |data|).value.start..]
  {
    hide FromBE, Encode, StartsWith;
  }

  /** An iBSS payload whose outer length takes one octet too many, and a ticket. */
  const LONG_FORM: Buffer := [0x30, 0x81, 0x0C] + [IA5_STRING, 4] + IM4P + [IA5_STRING, 4] + IBSS
  const TICKET: Buffer := [0x30, 6] + [IA5_STRING, 4] + IM4M

  /** The wrapper takes that payload, and the envelope it makes does not read back. The strict check refuses it. */
  lemma LooseCheckTakesLongForm()
    ensures |TICKET| <= MAX_TICKET && |EnvelopeContents(LONG_FORM, TICKET)| <= MAX_BUFFER
    ensures var wrapped := WrapFirmware(LONG_FORM, TICKET, "iBSS");
            wrapped.Ok? && !ReadsAsEnvelope(wrapped.value, LONG_FORM, TICKET)
    ensures !HasMagic(LONG_FORM, IM4P)
  {
    hide Read, Encode, FromBE, ReadsAsEnvelope;
    EnvelopeSize(LONG_FORM, TICKET);
    FourByteString(IM4P);
    FourByteString(IBSS);
    FourByteString(IM4M);
    LongFormLength();
    assert TICKET[2..] == Encode(IA5_STRING, IM4M);
    FirmwareReadsBack(LONG_FORM, TICKET, "iBSS");
    StrictIsLooseAndMinimal(LONG_FORM, IM4P);
  }

  lemma LongFormLength()
    ensures !MinimalOuterLength(LONG_FORM)
    ensures Content(LONG_FORM, IM4P) == Ok(Encode(IA5_STRING, IM4P) + Encode(IA5_STRING, IBSS))
  {
    hide Encode;
    FourByteString(IM4P);
    FourByteString(IBSS);
    assert LONG_FORM[2..3] == [0x0C];
    assert FromBE([0x0C]) == 12;
    assert LONG_FORM[2..][..1] == [0x0C];
    assert LONG_FORM[3..] == Encode(IA5_STRING, IM4P) + Encode(IA5_STRING, IBSS);
    assert LONG_FORM[3..][..6] == Encode(IA5_STRING, IM4P);
  }
}
