/**
 The distinguished TLV encoding shared by the restore, personalization and
 input-preparation tools: section 8.1.3 of ITU-T X.690 with the minimal-length
 rule of section 10.1.
 */
module Der {
  import opened Bytes

  /** The longest bytes object the host can hold. */
  const MAX_BUFFER: nat := 0x7fff_ffff_ffff_ffff

  const SEQUENCE: Byte := 0x30
  const IA5_STRING: Byte := 0x16
  const OCTET_STRING: Byte := 0x04
  const CONTEXT_0: Byte := 0xA0

  const IM4P: Buffer := [0x49, 0x4D, 0x34, 0x50]
  const IM4M: Buffer := [0x49, 0x4D, 0x34, 0x4D]
  const IMG4: Buffer := [0x49, 0x4D, 0x47, 0x34]

  function LengthBytes(size: nat): (s: Buffer)
    requires size <= MAX_BUFFER
  {
    if size < 128 then [size]
    else
      var count := (BitLength(size) + 7) / 8;
      CountFits(size);
      [0x80 + count] + ToBE(size, count)
  }

  /** `_der`: one element with the shortest length field. */
  function Encode(tag: Byte, content: Buffer): (s: Buffer)
    requires |content| <= MAX_BUFFER
  {
    [tag] + LengthBytes(|content|) + content
  }

  predicate LowTag(tag: Byte) { tag % 32 != 31 }

  /** The encoder of the input-preparation tool, which also refuses high tag numbers. */
  function CheckedEncode(tag: int, payload: Buffer): (r: Result<Buffer>)
    requires |payload| <= MAX_BUFFER
  {
    if !(0 <= tag <= 0xFF) || tag % 32 == 31 then Err("unsupported DER tag")
    else if |payload| < 0x80 then Ok([tag as Byte] + [|payload|] + payload)
    else
      CountFits(|payload|);
      var raw := ToBE(|payload|, (BitLength(|payload|) + 7) / 8);
      Ok([tag as Byte] + ([0x80 + |raw|] + raw) + payload)
  }

  datatype Element = Element(tag: Byte, start: nat, end: nat)

  /** `_element`: the strict reader; offsets are absolute in data. */
  function Read(data: Buffer, offset: int, limit: int): (r: Result<Element>)
    requires limit <= |data|
    ensures r.Ok? ==> 0 <= offset && offset + 2 <= r.value.start <= r.value.end <= limit
  {
    if offset < 0 || offset + 2 > limit then Err("Truncated DER element")
    else
      var tag := data[offset];
      var first := data[offset + 1];
      var start := offset + 2;
      if tag % 32 == 31 then Err("Unexpected high-tag-number DER element")
      else if first >= 128 then
        var count := first % 128;
        if !(1 <= count <= 4) || start + count > limit || data[start] == 0 then Err("Invalid DER length")
        else
          var length := FromBE(data[start..start + count]);
          if length < 128 then Err("Noncanonical DER length")
          else if start + count + length > limit then Err("DER element exceeds container")
          else Ok(Element(tag, start + count, start + count + length))
      else if start + first > limit then Err("DER element exceeds container")
      else Ok(Element(tag, start, start + first))
  }

  lemma CountFits(size: nat)
    requires 0 < size <= MAX_BUFFER
    ensures 1 <= (BitLength(size) + 7) / 8 <= 8
  {
    hide BitLength, Pow256;
    ByteLength(size);
    Pow256Values();
    if (BitLength(size) + 7) / 8 > 8 {
      Pow256Monotone(8, (BitLength(size) + 7) / 8 - 1);
    }
  }

  /** A length of 2^32 or more needs more than four octets; a shorter one does not. */
  lemma LengthOctets(size: nat)
    requires 128 <= size <= MAX_BUFFER
    ensures var count := (BitLength(size) + 7) / 8;
            && (count <= 4 <==> size < 0x1_0000_0000)
            && ToBE(size, count)[0] != 0
            && FromBE(ToBE(size, count)) == size
  {
    hide BitLength, Pow256, FromBE, ToBE;
    ByteLength(size);
    CountFits(size);
    Pow256Values();
    var count := (BitLength(size) + 7) / 8;
    var digits := ToBE(size, count);
    FromBEToBE(size, count);
    FromBELeading(digits);
    if count <= 4 {
      Pow256Monotone(count, 4);
    } else {
      Pow256Monotone(4, count - 1);
    }
  }

  lemma CheckedEncodeIsEncode(tag: int, payload: Buffer)
    requires |payload| <= MAX_BUFFER
    ensures CheckedEncode(tag, payload).Ok? <==> 0 <= tag <= 0xFF && LowTag(tag)
    ensures CheckedEncode(tag, payload).Ok? ==> CheckedEncode(tag, payload).value == Encode(tag, payload)
  {
  }

  /**
   Reading back what the encoder wrote, wherever it stands in a buffer: the reader
   returns the tag and the content exactly when the tag number is low and the content
   is shorter than 2^32 bytes, and refuses otherwise.
   */
  lemma ReadEncode(data: Buffer, offset: nat, limit: nat, tag: Byte, content: Buffer)
    requires |content| <= MAX_BUFFER
    requires offset + |Encode(tag, content)| <= limit <= |data|
    requires data[offset..offset + |Encode(tag, content)|] == Encode(tag, content)
    ensures var end := offset + |Encode(tag, content)|;
            && (Read(data, offset, limit).Ok? <==> LowTag(tag) && |content| < 0x1_0000_0000)
            && (Read(data, offset, limit).Ok? ==>
                  && Read(data, offset, limit) == Ok(Element(tag, end - |content|, end))
                  && data[end - |content|..end] == content)
  {
    hide FromBE, Encode, LengthBytes;
    var lengths := LengthBytes(|content|);
    HeaderLayout(data, offset, tag, content);
    assert data[offset + 1] == data[offset + 1..offset + 1 + |lengths|][0];
    if |content| >= 128 {
      LengthField(data, offset, |content|);
    }
  }

  lemma LengthBytesShape(size: nat)
    requires size <= MAX_BUFFER
    ensures |LengthBytes(size)| >= 1 && (size < 128 ==> LengthBytes(size) == [size])
  {
  }

  lemma HeaderLayout(data: Buffer, offset: nat, tag: Byte, content: Buffer)
    requires |content| <= MAX_BUFFER
    requires offset + |Encode(tag, content)| <= |data|
    requires data[offset..offset + |Encode(tag, content)|] == Encode(tag, content)
    ensures data[offset] == tag
    ensures var lengths := LengthBytes(|content|);
            && |Encode(tag, content)| == 1 + |lengths| + |content|
            && |lengths| >= 1 && (|content| < 128 ==> lengths == [|content|])
            && data[offset + 1..offset + 1 + |lengths|] == lengths
            && data[offset + 1 + |lengths|..offset + 1 + |lengths| + |content|] == content
  {
    hide LengthBytes;
    LengthBytesShape(|content|);
    var lengths := LengthBytes(|content|);
    var size := 1 + |lengths| + |content|;
    SplitThree([tag], lengths, content);
    assert data[offset] == data[offset..offset + size][0];
    SliceOfSlice(data, offset, offset + size, 1, 1 + |lengths|);
    SliceOfSlice(data, offset, offset + size, 1 + |lengths|, size);
  }

  lemma LengthField(data: Buffer, offset: nat, size: nat)
    requires 128 <= size <= MAX_BUFFER
    requires offset + 1 + |LengthBytes(size)| <= |data|
    requires data[offset + 1..offset + 1 + |LengthBytes(size)|] == LengthBytes(size)
    ensures var count := |LengthBytes(size)| - 1;
            && 1 <= count <= 8 && data[offset + 1] == 128 + count
            && data[offset + 2] != 0
            && (count <= 4 <==> size < 0x1_0000_0000)
            && FromBE(data[offset + 2..offset + 2 + count]) == size
  {
    hide FromBE, ToBE, BitLength;
    CountFits(size);
    LengthOctets(size);
    var lengths := LengthBytes(size);
    var part := data[offset + 1..offset + 1 + |lengths|];
    assert part[0] == data[offset + 1] && part[1] == data[offset + 2];
    assert data[offset + 2..offset + 1 + |lengths|] == part[1..] == ToBE(size, |lengths| - 1);
  }

  /** The reader is canonical: what it accepts is byte for byte the encoding of what it read. */
  lemma ReadIsCanonical(data: Buffer, offset: nat, limit: nat)
    requires limit <= |data| <= MAX_BUFFER
    requires Read(data, offset, limit).Ok?
    ensures var e := Read(data, offset, limit).value;
            && LowTag(e.tag)
            && e.end - e.start < 0x1_0000_0000
            && data[offset..e.end] == Encode(e.tag, data[e.start..e.end])
  {
    hide Read, LengthBytes;
    HeaderIsCanonical(data, offset, limit);
    var e := Read(data, offset, limit).value;
    var lengths, content := LengthBytes(e.end - e.start), data[e.start..e.end];
    assert data[offset..e.end] == [e.tag] + data[offset + 1..e.start] + content;
  }

  lemma HeaderIsCanonical(data: Buffer, offset: nat, limit: nat)
    requires limit <= |data| <= MAX_BUFFER
    requires Read(data, offset, limit).Ok?
    ensures var e := Read(data, offset, limit).value;
            && LowTag(e.tag) && e.tag == data[offset]
            && offset + 2 <= e.start <= e.end <= limit && e.end - e.start < 0x1_0000_0000
            && data[offset + 1..e.start] == LengthBytes(e.end - e.start)
  {
    hide FromBE, ToBE, BitLength, LengthBytes, Pow256;
    var e := Read(data, offset, limit).value;
    LengthBytesShape(e.end - e.start);
    if data[offset + 1] >= 128 {
      var count := data[offset + 1] % 128;
      var digits := data[offset + 2..offset + 2 + count];
      MinimalDigits(digits);
      assert data[offset + 1..e.start] == [data[offset + 1]] + digits;
    }
  }

  lemma MinimalDigits(digits: Buffer)
    requires 1 <= |digits| <= 4 && digits[0] != 0 && FromBE(digits) >= 128
    ensures FromBE(digits) < 0x1_0000_0000
    ensures LengthBytes(FromBE(digits)) == [0x80 + |digits|] + digits
  {
    hide FromBE, ToBE, BitLength, Pow256, LengthBytes;
    FourDigitBound(digits);
    var length := FromBE(digits);
    LeadingDigitBounds(digits);
    ByteLengthUnique(length, |digits|);
    ToBEFromBE(digits);
    LongLengthBytes(length, |digits|);
  }

  lemma LongLengthBytes(size: nat, count: nat)
    requires 128 <= size <= MAX_BUFFER && count == (BitLength(size) + 7) / 8
    ensures count < 128 && LengthBytes(size) == [0x80 + count] + ToBE(size, count)
  {
    hide BitLength, ToBE;
    CountFits(size);
  }

  lemma LeadingDigitBounds(digits: Buffer)
    requires |digits| > 0 && digits[0] != 0
    ensures Pow256(|digits| - 1) <= FromBE(digits) < Pow256(|digits|)
  {
    hide FromBE, Pow256;
    FromBEBound(digits);
    FromBELeading(digits);
    var lead: int, p := digits[0], Pow256(|digits| - 1);
    assert lead * p >= p;
  }

  lemma FourDigitBound(digits: Buffer)
    requires |digits| <= 4
    ensures FromBE(digits) < 0x1_0000_0000
  {
    hide FromBE, Pow256;
    FromBEBound(digits);
    Pow256Values();
    Pow256Monotone(|digits|, 4);
  }

  /** Only the bytes of the header decide what the reader returns. */
  lemma ReadDependsOnHeader(data: Buffer, other: Buffer, offset: int, limit: int)
    requires |data| == |other| && limit <= |data|
    requires Read(data, offset, limit).Ok?
    requires other[offset..Read(data, offset, limit).value.start] == data[offset..Read(data, offset, limit).value.start]
    ensures Read(other, offset, limit) == Read(data, offset, limit)
  {
    var start := Read(data, offset, limit).value.start;
    forall i | offset <= i < start ensures other[i] == data[i] {
      assert other[offset..start][i - offset] == data[offset..start][i - offset];
    }
    if data[offset + 1] >= 128 {
      var count := data[offset + 1] % 128;
      assert other[offset + 2..offset + 2 + count] == data[offset + 2..offset + 2 + count];
    }
  }

  /** Reading inside a slice of the buffer is reading at the shifted offset. */
  lemma ReadInSlice(data: Buffer, low: nat, high: nat, offset: nat)
    requires low <= high <= |data| && low + offset <= high
    ensures var whole := Read(data, low + offset, high);
            var slice := Read(data[low..high], offset, high - low);
            && (whole.Ok? <==> slice.Ok?)
            && (whole.Ok? ==> whole.value == Element(slice.value.tag, slice.value.start + low, slice.value.end + low))
  {
    var part := data[low..high];
    if offset + 2 <= |part| {
      assert part[offset] == data[low + offset] && part[offset + 1] == data[low + offset + 1];
      var count := part[offset + 1] % 128;
      if offset + 2 + count <= |part| {
        var start := offset + 2;
        SliceOfSlice(data, low, high, start, start + count);
      }
    }
  }

  predicate StartsWith(data: Buffer, prefix: Buffer) {
    |prefix| <= |data| && data[..|prefix|] == prefix
  }

  /** `_der_content`: the looser whole-object reader of the personalization module. */
  function Content(data: Buffer, magic: Buffer): (r: Result<Buffer>)
    requires |magic| <= MAX_BUFFER
  {
    if |data| < 3 || data[0] != SEQUENCE then Err("Expected a DER sequence")
    else
      var count := if data[1] >= 128 then data[1] % 128 else 0;
      if count > 4 || data[1] == 0x80 || |data| < 2 + count then Err("Invalid DER length")
      else
        var size := if count > 0 then FromBE(data[2..2 + count]) else data[1];
        var start := 2 + count;
        if start + size != |data| || !StartsWith(data[start..], Encode(IA5_STRING, magic)) then
          Err("DER type/length does not match the expected IMG4 component")
        else Ok(data[start..])
  }

  /** `_der_magic`: the strict whole-object check of the input-preparation tool. */
  predicate HasMagic(data: Buffer, magic: Buffer) {
    var outer := Read(data, 0, |data|);
    && outer.Ok? && outer.value.tag == SEQUENCE && outer.value.end == |data|
    && var first := Read(data, outer.value.start, outer.value.end);
    && first.Ok? && first.value.tag == IA5_STRING && data[first.value.start..first.value.end] == magic
  }

  /** The outer length field is the shortest one. */
  predicate MinimalOuterLength(data: Buffer)
    requires |data| >= 3
  {
    var count := data[1] % 128;
    data[1] < 128 || (data[2] != 0 && FromBE(data[2..][..if count <= |data| - 2 then count else 0]) >= 128)
  }

  /** The strict reader takes the outer header exactly when the looser one does and its length is minimal. */
  lemma OuterHeader(data: Buffer)
    requires 3 <= |data| && data[0] == SEQUENCE
    ensures var outer := Read(data, 0, |data|);
            var count := if data[1] >= 128 then data[1] % 128 else 0;
            && (outer.Ok? && outer.value.end == |data| <==>
                  && count <= 4 && data[1] != 0x80 && 2 + count <= |data| && MinimalOuterLength(data)
                  && 2 + count + (if count > 0 then FromBE(data[2..2 + count]) else data[1]) == |data|)
            && (outer.Ok? ==> outer.value.start == 2 + count && outer.value.tag == SEQUENCE)
  {
    hide FromBE;
    var count := if data[1] >= 128 then data[1] % 128 else 0;
    if data[1] >= 128 && 2 + count <= |data| {
      assert data[2..2 + count] == data[2..][..count];
    }
  }

  lemma SequenceStarts(data: Buffer)
    requires Read(data, 0, |data|).Ok?
    ensures |data| >= 2 && Read(data, 0, |data|).value.tag == data[0]
    ensures 2 <= Read(data, 0, |data|).value.start <= Read(data, 0, |data|).value.end <= |data|
  {
    hide FromBE;
  }

  /** On short magics the strict check is the looser one plus a minimal outer length. */
  lemma StrictIsLooseAndMinimal(data: Buffer, magic: Buffer)
    requires |magic| < 128 && |data| <= MAX_BUFFER
    ensures HasMagic(data, magic) <==>
            Content(data, magic).Ok? && MinimalOuterLength(data)
  {
    hide Read, FromBE, Encode, MinimalOuterLength;
    var outer := Read(data, 0, |data|);
    if |data| >= 3 && data[0] == SEQUENCE {
      OuterHeader(data);
    }
    if outer.Ok? {
      SequenceStarts(data);
      MagicAtStart(data, outer.value.start, magic);
      if HasMagic(data, magic) {
        SequenceStartsInside(data, outer.value.start);
      }
    }
  }

  lemma SequenceStartsInside(data: Buffer, start: nat)
    requires start <= |data| && Read(data, start, |data|).Ok?
    ensures start + 2 <= |data|
  {
    hide FromBE;
  }

  lemma MagicAtStart(data: Buffer, start: nat, magic: Buffer)
    requires start <= |data| <= MAX_BUFFER && |magic| < 128
    ensures var first := Read(data, start, |data|);
            (first.Ok? && first.value.tag == IA5_STRING && data[first.value.start..first.value.end] == magic)
            <==> StartsWith(data[start..], Encode(IA5_STRING, magic))
  {
    var field := Encode(IA5_STRING, magic);
    var first := Read(data, start, |data|);
    if StartsWith(data[start..], field) {
      assert data[start..start + |field|] == data[start..][..|field|];
      ReadEncode(data, start, |data|, IA5_STRING, magic);
    }
    if first.Ok? && first.value.tag == IA5_STRING && data[first.value.start..first.value.end] == magic {
      ReadIsCanonical(data, start, |data|);
      assert first.value.end == start + |field|;
      assert data[start..][..|field|] == data[start..first.value.end];
    }
  }
}
