/** The ATXF executable format (kernel/src/executable.rs): a 32-byte header and
    page-aligned text and data sections. */
module Atxf {
  import opened Words

  type Byte = b: nat | b < 256

  const ATXF_MAGIC: nat := 0x4154_5846
  const ATXF_VERSION: nat := 1
  const HEADER_SIZE: nat := 32
  const U16: nat := 0x1_0000
  const U32: nat := 0x1_0000_0000

  datatype ExecError =
    | InvalidMagic | UnsupportedVersion(version: nat) | Truncated | MisalignedSection | OverlappingSection
    | EntryOutOfBounds

  datatype Result<+T> = Ok(value: T) | Err(error: ExecError)

  datatype Header = Header(
    magic: nat, version: nat, headerSize: nat, entryOffset: nat,
    textOffset: nat, textSize: nat, dataOffset: nat, dataSize: nat, bssSize: nat)

  datatype Sections = Sections(entryOffset: nat, text: seq<Byte>, data: seq<Byte>, bssSize: nat)

  // ----- little-endian integers -----

  function Le16(b: seq<Byte>, o: nat): nat
    requires o + 2 <= |b|
  {
    b[o] as nat + 256 * (b[o + 1] as nat)
  }

  function Le32(b: seq<Byte>, o: nat): nat
    requires o + 4 <= |b|
  {
    Le16(b, o) + U16 * Le16(b, o + 2)
  }

  function Put16(x: nat): seq<Byte> { [x % 256, x / 256 % 256] }

  function Put32(x: nat): seq<Byte> { Put16(x % U16) + Put16(x / U16) }

  function DecodeHeader(b: seq<Byte>): Header
    requires |b| >= HEADER_SIZE
  {
    Header(Le32(b, 0), Le16(b, 4), Le16(b, 6), Le32(b, 8), Le32(b, 12), Le32(b, 16), Le32(b, 20), Le32(b, 24),
      Le32(b, 28))
  }

  function EncodeHeader(h: Header): (b: seq<Byte>)
    ensures |b| == HEADER_SIZE
  {
    Put32(h.magic) + Put16(h.version) + Put16(h.headerSize) + Put32(h.entryOffset) + Put32(h.textOffset)
    + Put32(h.textSize) + Put32(h.dataOffset) + Put32(h.dataSize) + Put32(h.bssSize)
  }

  predicate Fits(h: Header) {
    && h.magic < U32 && h.version < U16 && h.headerSize < U16 && h.entryOffset < U32
    && h.textOffset < U32 && h.textSize < U32 && h.dataOffset < U32 && h.dataSize < U32 && h.bssSize < U32
  }

  lemma Le16Put(b: seq<Byte>, o: nat, x: nat)
    requires o + 2 <= |b| && x < U16 && b[o..o + 2] == Put16(x)
    ensures Le16(b, o) == x
  {
    assert b[o] == b[o..o + 2][0] && b[o + 1] == b[o..o + 2][1];
  }

  lemma Le32Put(b: seq<Byte>, o: nat, x: nat)
    requires o + 4 <= |b| && x < U32 && b[o..o + 4] == Put32(x)
    ensures Le32(b, o) == x
  {
    var s := b[o..o + 4];
    assert s[0..2] == Put16(x % U16) && s[2..4] == Put16(x / U16);
    assert b[o..o + 2] == s[0..2] && b[o + 2..o + 4] == s[2..4];
    Le16Put(b, o, x % U16);
    Le16Put(b, o + 2, x / U16);
  }

  /** Decoding undoes encoding, whatever follows the header. */
  lemma HeaderRoundTrip(h: Header, rest: seq<Byte>)
    requires Fits(h)
    ensures DecodeHeader(EncodeHeader(h) + rest) == h
  {
    var e := EncodeHeader(h);
    var b := e + rest;
    assert b[..HEADER_SIZE] == e;
    assert b[0..4] == Put32(h.magic);
    assert b[4..6] == Put16(h.version);
    assert b[6..8] == Put16(h.headerSize);
    assert b[8..12] == Put32(h.entryOffset);
    assert b[12..16] == Put32(h.textOffset);
    assert b[16..20] == Put32(h.textSize);
    assert b[20..24] == Put32(h.dataOffset);
    assert b[24..28] == Put32(h.dataSize);
    assert b[28..32] == Put32(h.bssSize);
    Le32Put(b, 0, h.magic);
    Le16Put(b, 4, h.version);
    Le16Put(b, 6, h.headerSize);
    Le32Put(b, 8, h.entryOffset);
    Le32Put(b, 12, h.textOffset);
    Le32Put(b, 16, h.textSize);
    Le32Put(b, 20, h.dataOffset);
    Le32Put(b, 24, h.dataSize);
    Le32Put(b, 28, h.bssSize);
  }

  // ----- parsing -----

  /** The overlap test, on wrapping `u32` sums. */
  predicate Overlapping(h: Header) {
    || (h.textOffset <= h.dataOffset && (h.textOffset + h.textSize) % U32 > h.dataOffset)
    || (h.dataOffset <= h.textOffset && (h.dataOffset + h.dataSize) % U32 > h.textOffset)
  }

  /** `parse_image`: the first failing check, or the sections. */
  function ParseImage(image: seq<Byte>): Result<Sections> {
    if |image| < HEADER_SIZE then Err(Truncated)
    else
      var h := DecodeHeader(image);
      if h.magic != ATXF_MAGIC then Err(InvalidMagic)
      else if h.version != ATXF_VERSION then Err(UnsupportedVersion(h.version))
      else if h.headerSize < HEADER_SIZE then Err(Truncated)
      else if !Aligned(h.textOffset) || !Aligned(h.dataOffset) then Err(MisalignedSection)
      else if h.textOffset < h.headerSize || h.dataOffset < h.headerSize then Err(OverlappingSection)
      else if h.textOffset + h.textSize > |image| then Err(Truncated)
      else if h.dataOffset + h.dataSize > |image| then Err(Truncated)
      else if Overlapping(h) then Err(OverlappingSection)
      else if h.entryOffset >= h.textSize then Err(EntryOutOfBounds)
      else if |image| < h.headerSize then Err(Truncated)
      else Ok(Sections(
        h.entryOffset,
        image[h.textOffset..h.textOffset + h.textSize],
        image[h.dataOffset..h.dataOffset + h.dataSize],
        h.bssSize))
  }

  ghost predicate Occupies(start: nat, size: nat, x: nat) { start <= x < start + size }

  /** No byte position belongs to two of the header, the text and the data. */
  ghost predicate Separate(h: Header) {
    forall x: nat ::
      && !(Occupies(0, h.headerSize, x) && Occupies(h.textOffset, h.textSize, x))
      && !(Occupies(0, h.headerSize, x) && Occupies(h.dataOffset, h.dataSize, x))
      && !(Occupies(h.textOffset, h.textSize, x) && Occupies(h.dataOffset, h.dataSize, x))
  }

  /** A data section without bytes, placed inside the text. */
  predicate EmptyInside(h: Header) {
    h.dataSize == 0 && h.textOffset <= h.dataOffset < h.textOffset + h.textSize
  }

  /** All checks of `parse_image` but the overlap test. */
  predicate Layout(h: Header, length: nat) {
    && h.magic == ATXF_MAGIC && h.version == ATXF_VERSION && h.headerSize >= HEADER_SIZE
    && Aligned(h.textOffset) && Aligned(h.dataOffset)
    && h.headerSize <= h.textOffset && h.headerSize <= h.dataOffset
    && h.textOffset + h.textSize <= length && h.dataOffset + h.dataSize <= length
    && h.entryOffset < h.textSize
  }

  /** The section that starts first ends at 4 GiB or beyond, where its `u32` end wraps. */
  predicate Wraps(h: Header) {
    || (h.textOffset <= h.dataOffset && h.textOffset + h.textSize >= U32)
    || (h.dataOffset <= h.textOffset && h.dataOffset + h.dataSize >= U32)
  }

  /** What an accepted image is, for images of every length. Below 4 GiB: the layout,
      and sections that share no byte and no empty data inside the text. A first section
      that reaches 4 GiB is accepted whenever its wrapped end is small; then the sections
      share a byte unless the data is empty. */
  lemma ParseMeaning(image: seq<Byte>)
    ensures ParseImage(image).Ok? <==>
      && |image| >= HEADER_SIZE
      && var h := DecodeHeader(image);
         Layout(h, |image|) && if Wraps(h) then !Overlapping(h) else Separate(h) && !EmptyInside(h)
    ensures ParseImage(image).Ok? ==>
      var h := DecodeHeader(image);
      Separate(h) <==> !Wraps(h) || h.dataSize == 0
    ensures ParseImage(image).Ok? && |image| < U32 ==> Separate(DecodeHeader(image))
    ensures ParseImage(image).Ok? ==> ParseImage(image).value.entryOffset < |ParseImage(image).value.text|
  {
    hide DecodeHeader, Separate, Wraps, Overlapping;
    if |image| >= HEADER_SIZE && Layout(DecodeHeader(image), |image|) {
      OffsetBounds(image);
      OverlapMeaning(DecodeHeader(image), |image|);
    }
  }

  /** What the overlap test decides about sections that are in bounds. */
  lemma OverlapMeaning(h: Header, length: nat)
    requires Layout(h, length) && h.textOffset < U32 && h.textSize < U32 && h.dataOffset < U32 && h.dataSize < U32
    ensures Wraps(h) ==> (Separate(h) <==> h.dataSize == 0)
    ensures !Wraps(h) ==> (Overlapping(h) <==> !Separate(h) || EmptyInside(h))
    ensures length < U32 ==> !Wraps(h)
  {
    SeparateIs(h, length);
    hide Separate;
  }

  /** Disjointness read off the section bounds. */
  lemma SeparateIs(h: Header, length: nat)
    requires Layout(h, length)
    ensures Separate(h) <==>
      || h.dataSize == 0 || h.textOffset + h.textSize <= h.dataOffset || h.dataOffset + h.dataSize <= h.textOffset
  {
    var x := if h.textOffset <= h.dataOffset then h.dataOffset else h.textOffset;
    assert Occupies(h.textOffset, h.textSize, x) && Occupies(h.dataOffset, h.dataSize, x) ==> !Separate(h);
  }

  /** Where each header field sits in the image, byte by byte. */
  lemma HeaderBytes(b: seq<Byte>)
    requires |b| >= 32
    ensures var h := DecodeHeader(b);
      && h.magic == b[0] as nat + 0x100 * (b[1] as nat) + 0x1_0000 * (b[2] as nat) + 0x100_0000 * (b[3] as nat)
      && h.version == b[4] as nat + 0x100 * (b[5] as nat) && h.headerSize == b[6] as nat + 0x100 * (b[7] as nat)
      && h.entryOffset == b[8] as nat + 0x100 * (b[9] as nat) + 0x1_0000 * (b[10] as nat) + 0x100_0000 * (b[11] as nat)
      && h.textOffset == b[12] as nat + 0x100 * (b[13] as nat) + 0x1_0000 * (b[14] as nat) + 0x100_0000 * (b[15] as nat)
      && h.textSize == b[16] as nat + 0x100 * (b[17] as nat) + 0x1_0000 * (b[18] as nat) + 0x100_0000 * (b[19] as nat)
      && h.dataOffset == b[20] as nat + 0x100 * (b[21] as nat) + 0x1_0000 * (b[22] as nat) + 0x100_0000 * (b[23] as nat)
      && h.dataSize == b[24] as nat + 0x100 * (b[25] as nat) + 0x1_0000 * (b[26] as nat) + 0x100_0000 * (b[27] as nat)
      && h.bssSize == b[28] as nat + 0x100 * (b[29] as nat) + 0x1_0000 * (b[30] as nat) + 0x100_0000 * (b[31] as nat)
  {
  }

  /** What is handed over are the stretches of the image that its header names. */
  lemma ParsedSections(image: seq<Byte>)
    requires ParseImage(image).Ok?
    ensures |image| >= 32 && var h, s := DecodeHeader(image), ParseImage(image).value;
      && s.entryOffset == h.entryOffset && s.bssSize == h.bssSize
      && |s.text| == h.textSize && |s.data| == h.dataSize
      && (forall o: nat :: o < h.textSize ==> h.textOffset + o < |image| && s.text[o] == image[h.textOffset + o])
      && (forall o: nat :: o < h.dataSize ==> h.dataOffset + o < |image| && s.data[o] == image[h.dataOffset + o])
  {
    hide DecodeHeader;
  }

  /** Which error an image gets that is turned down. */
  lemma ParseErrors(image: seq<Byte>)
    ensures |image| < 32 ==> ParseImage(image) == Err(Truncated)
    ensures |image| >= 32 ==> var h, r := DecodeHeader(image), ParseImage(image);
      var named := h.magic == 0x4154_5846 && h.version == 1 && h.headerSize >= 32;
      var aligned := h.textOffset % 4096 == 0 && h.dataOffset % 4096 == 0;
      var clear := h.headerSize <= h.textOffset && h.headerSize <= h.dataOffset;
      var inside := h.textOffset + h.textSize <= |image| && h.dataOffset + h.dataSize <= |image|;
      && (r == Err(InvalidMagic) <==> h.magic != 0x4154_5846)
      && (r.Err? && r.error.UnsupportedVersion? <==> h.magic == 0x4154_5846 && h.version != 1)
      && (r.Err? && r.error.UnsupportedVersion? ==> r.error == UnsupportedVersion(h.version))
      && (r == Err(MisalignedSection) <==> named && !aligned)
      && (r == Err(OverlappingSection) <==> named && aligned && (!clear || (inside && Overlapping(h))))
      && (r == Err(EntryOutOfBounds) <==>
            named && aligned && clear && inside && !Overlapping(h) && h.entryOffset >= h.textSize)
      && (r == Err(Truncated) <==>
            && h.magic == 0x4154_5846 && h.version == 1
            && (h.headerSize < 32 || (aligned && clear && !inside)))
  {
    hide DecodeHeader, Overlapping;
  }

  lemma OffsetBounds(image: seq<Byte>)
    requires |image| >= HEADER_SIZE
    ensures var h := DecodeHeader(image);
      h.textOffset < U32 && h.textSize < U32 && h.dataOffset < U32 && h.dataSize < U32
  {
    hide Le32;
    Le32Bound(image, 12);
    Le32Bound(image, 16);
    Le32Bound(image, 20);
    Le32Bound(image, 24);
  }

  /** An image of 4 GiB whose data lies inside its text, and which is accepted. */
  lemma OverlapMissed()
    ensures var h := HugeText(4096);
      var image := EncodeHeader(h) + Zeros(U32 - HEADER_SIZE);
      ParseImage(image).Ok? && !Separate(h)
  {
    var rest := Zeros(U32 - HEADER_SIZE);
    HeaderRoundTrip(HugeText(4096), rest);
    hide DecodeHeader, EncodeHeader, Separate;
    ParseMeaning(EncodeHeader(HugeText(4096)) + rest);
  }

  /** The same image without data bytes is accepted too, and its sections share nothing. */
  lemma EmptyDataAccepted()
    ensures var h := HugeText(0);
      var image := EncodeHeader(h) + Zeros(U32 - HEADER_SIZE);
      ParseImage(image).Ok? && Wraps(h) && Separate(h)
  {
    var rest := Zeros(U32 - HEADER_SIZE);
    HeaderRoundTrip(HugeText(0), rest);
    hide DecodeHeader, EncodeHeader, Separate;
    ParseMeaning(EncodeHeader(HugeText(0)) + rest);
  }

  /** A text that ends at 4 GiB, with a data section of the given size inside it. */
  function HugeText(dataSize: nat): Header {
    Header(ATXF_MAGIC, ATXF_VERSION, HEADER_SIZE, 0, 4096, U32 - 4096, 8192, dataSize, 0)
  }

  lemma Le32Bound(b: seq<Byte>, o: nat)
    requires o + 4 <= |b|
    ensures Le32(b, o) < U32
  {
  }

  /** Accepted sections have 32-bit sizes and an entry inside the text. */
  lemma ParsedSizes(image: seq<Byte>)
    requires ParseImage(image).Ok?
    ensures var s := ParseImage(image).value;
      |s.text| < U32 && |s.data| < U32 && s.bssSize < U32 && s.entryOffset < |s.text|
  {
    hide Le32;
    Le32Bound(image, 16);
    Le32Bound(image, 24);
    Le32Bound(image, 28);
  }

  // ----- building -----

  function Zeros(n: nat): seq<Byte> { seq(n, _ => 0) }

  function Pad(b: seq<Byte>): (p: seq<Byte>)
    requires |b| + PAGE_SIZE <= USIZE
    ensures |p| == AlignUp(|b|) && b <= p
  {
    AlignUpMeaning(|b|);
    b + Zeros(AlignUp(|b|) - |b|)
  }

  function ImageHeader(s: Sections): Header {
    Header(ATXF_MAGIC, ATXF_VERSION, HEADER_SIZE, s.entryOffset, PAGE_SIZE, |s.text|, PAGE_SIZE + AlignUp(|s.text|),
      |s.data|, s.bssSize)
  }

  /** Header page, text pages, data: the layout `build_embedded_image` uses. */
  function BuildImage(s: Sections): (image: seq<Byte>)
    requires |s.text| + 2 * PAGE_SIZE < U32
    ensures |image| == PAGE_SIZE + AlignUp(|s.text|) + |s.data|
  {
    assert AlignUp(HEADER_SIZE) == PAGE_SIZE;
    Pad(EncodeHeader(ImageHeader(s))) + Pad(s.text) + s.data
  }

  /** Parsing undoes building, for every executable that fits the format. */
  lemma ImageRoundTrip(s: Sections)
    requires s.entryOffset < |s.text| && |s.text| + 2 * PAGE_SIZE < U32 && |s.data| < U32 && s.bssSize < U32
    requires 2 * PAGE_SIZE + |s.text| + |s.data| < U32
    ensures ParseImage(BuildImage(s)) == Ok(s)
  {
    hide DecodeHeader, EncodeHeader, Pad;
    var h := ImageHeader(s);
    var e := EncodeHeader(h);
    assert AlignUp(HEADER_SIZE) == PAGE_SIZE;
    var image := BuildImage(s);
    AlignUpMeaning(|s.text|);
    BuildSlices(Pad(e), Pad(s.text), s.data, e, s.text);
    HeaderRoundTrip(h, image[HEADER_SIZE..]);
  }

  lemma BuildSlices(hp: seq<Byte>, tp: seq<Byte>, data: seq<Byte>, e: seq<Byte>, text: seq<Byte>)
    requires e <= hp && text <= tp
    ensures var image := hp + tp + data;
      && image == e + image[|e|..]
      && image[|hp|..|hp| + |text|] == text
      && image[|hp| + |tp|..|hp| + |tp| + |data|] == data
  {
    var image := hp + tp + data;
    assert image[|hp|..|hp| + |tp|] == tp;
    assert image[|hp|..|hp| + |text|] == tp[..|text|];
    assert image[..|hp|] == hp && image[..|e|] == hp[..|e|];
  }

  const EMBEDDED_TEXT: seq<Byte> := [0x48, 0xC7, 0xC0, 0x00, 0x00, 0x00, 0x00, 0x0F, 0x05, 0xEB, 0xF7]

  /** The image the kernel falls back to is one its own parser accepts. */
  lemma EmbeddedImageValid()
    ensures var s := Sections(0, EMBEDDED_TEXT + Zeros(PAGE_SIZE - |EMBEDDED_TEXT|), [], PAGE_SIZE);
      ParseImage(BuildImage(s)) == Ok(s) && |BuildImage(s)| == 2 * PAGE_SIZE
  {
    hide ParseImage, BuildImage;
    var s := Sections(0, EMBEDDED_TEXT + Zeros(PAGE_SIZE - |EMBEDDED_TEXT|), [], PAGE_SIZE);
    ImageRoundTrip(s);
  }
}
