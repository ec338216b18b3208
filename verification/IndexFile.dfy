/** saveIndex and loadIndex: the header fields, the base memory and the higher link lists as one file. */
module IndexFile {
  import opened LittleEndian
  import opened FlatMemory

  // ---------------------------------------------------------------- the format

  /** The thirteen fields in front, in the order they are written; mult is the bits of a double. */
  datatype Header = Header(
    offsetLevel0: nat, maxElements: nat, count: nat, sizeDataPerElement: nat, labelOffset: nat, offsetData: nat,
    maxlevel: int, enterpoint: nat, maxM: nat, maxM0: nat, m: nat, mult: nat, efConstruction: nat)

  const HEADER_SIZE: nat := 96

  /** What a file holds: the header, the elements of the base memory, and a block of higher lists for each. */
  datatype Image = Image(header: Header, level0: seq<byte>, blocks: seq<seq<byte>>)

  predicate HeaderFits(h: Header) {
    && h.offsetLevel0 < Range(8) && h.maxElements < Range(8) && h.count < Range(8) && h.sizeDataPerElement < Range(8)
    && h.labelOffset < Range(8) && h.offsetData < Range(8) && -0x8000_0000 <= h.maxlevel < 0x8000_0000 && h.enterpoint < Range(4)
    && h.maxM < Range(8) && h.maxM0 < Range(8) && h.m < Range(8) && h.mult < Range(8) && h.efConstruction < Range(8)
  }

  /** The bytes of base memory in use. */
  function Level0Size(h: Header): nat {
    h.count * h.sizeDataPerElement
  }

  predicate ImageFits(img: Image) {
    && HeaderFits(img.header)
    && |img.level0| == Level0Size(img.header)
    && |img.blocks| == img.header.count
    && forall i | 0 <= i < |img.blocks| :: |img.blocks[i]| < Range(4)
  }

  /** A signed int in two's complement. */
  function Unsigned(x: int): nat
    requires -0x8000_0000 <= x < 0x8000_0000
  {
    if x < 0 then x + 0x1_0000_0000 else x
  }

  function Signed(n: nat): int {
    if n < 0x8000_0000 then n else n - 0x1_0000_0000
  }

  /** Fields of eight bytes written one after the other. */
  function Words(a: nat, b: nat): (s: seq<byte>)
    ensures |s| == 16
  {
    Encode(8, a) + Encode(8, b)
  }

  function HeaderBytes(h: Header): (s: seq<byte>)
    requires HeaderFits(h)
    ensures |s| == HEADER_SIZE
  {
    Words(h.offsetLevel0, h.maxElements) + Words(h.count, h.sizeDataPerElement) + Words(h.labelOffset, h.offsetData)
    + (Encode(4, Unsigned(h.maxlevel)) + Encode(4, h.enterpoint))
    + Words(h.maxM, h.maxM0) + Words(h.m, h.mult) + Encode(8, h.efConstruction)
  }

  function Field(s: seq<byte>, at: nat, width: nat): nat
    requires at + width <= |s|
  {
    Decode(s[at..at + width])
  }

  function HeaderIn(s: seq<byte>): Header
    requires |s| >= HEADER_SIZE
  {
    Header(Field(s, 0, 8), Field(s, 8, 8), Field(s, 16, 8), Field(s, 24, 8), Field(s, 32, 8), Field(s, 40, 8),
           Signed(Field(s, 48, 4)), Field(s, 52, 4), Field(s, 56, 8), Field(s, 64, 8), Field(s, 72, 8), Field(s, 80, 8), Field(s, 88, 8))
  }

  function BlockBytes(blocks: seq<seq<byte>>): seq<byte> {
    if blocks == [] then [] else Encode(4, |blocks[0]|) + blocks[0] + BlockBytes(blocks[1..])
  }

  /** The file of an image. */
  function FileOf(img: Image): seq<byte>
    requires ImageFits(img)
  {
    HeaderBytes(img.header) + img.level0 + BlockBytes(img.blocks)
  }

  // ---------------------------------------------------------------- reading back

  lemma HeaderRoundTrip(h: Header)
    requires HeaderFits(h)
    ensures HeaderIn(HeaderBytes(h)) == h
  {
    var s := HeaderBytes(h);
    Widths();
    HeaderSlices(h);
    WordsAt(s, 0, h.offsetLevel0, h.maxElements);
    WordsAt(s, 16, h.count, h.sizeDataPerElement);
    WordsAt(s, 32, h.labelOffset, h.offsetData);
    RoundTrip(4, Unsigned(h.maxlevel));
    RoundTrip(4, h.enterpoint);
    WordsAt(s, 56, h.maxM, h.maxM0);
    WordsAt(s, 72, h.m, h.mult);
    RoundTrip(8, h.efConstruction);
    assert Signed(Unsigned(h.maxlevel)) == h.maxlevel;
    hide Encode, Decode, HeaderBytes, Words, Range;
  }

  lemma HeaderSlices(h: Header)
    requires HeaderFits(h)
    ensures var s := HeaderBytes(h);
            && s[0..16] == Words(h.offsetLevel0, h.maxElements) && s[16..32] == Words(h.count, h.sizeDataPerElement)
            && s[32..48] == Words(h.labelOffset, h.offsetData)
            && s[48..52] == Encode(4, Unsigned(h.maxlevel)) && s[52..56] == Encode(4, h.enterpoint)
            && s[56..72] == Words(h.maxM, h.maxM0) && s[72..88] == Words(h.m, h.mult) && s[88..96] == Encode(8, h.efConstruction)
  {
    hide Encode, Range, HeaderFits, Words;
  }

  lemma WordsAt(s: seq<byte>, at: nat, a: nat, b: nat)
    requires at + 16 <= |s| && s[at..at + 16] == Words(a, b) && a < Range(8) && b < Range(8)
    ensures Field(s, at, 8) == a && Field(s, at + 8, 8) == b
  {
    RoundTrip(8, a);
    RoundTrip(8, b);
    hide Encode, Decode, Range;
    SliceOfSlice(s, at, 16, 0, 8);
    SliceOfSlice(s, at, 16, 8, 16);
    assert Words(a, b)[0..8] == Encode(8, a) && Words(a, b)[8..16] == Encode(8, b);
  }

  lemma HeaderInFits(s: seq<byte>)
    requires |s| >= HEADER_SIZE
    ensures HeaderFits(HeaderIn(s)) && Unsigned(HeaderIn(s).maxlevel) == Field(s, 48, 4)
  {
    Widths();
    FieldInRange(s, 0, 8);
    FieldInRange(s, 8, 8);
    FieldInRange(s, 16, 8);
    FieldInRange(s, 24, 8);
    FieldInRange(s, 32, 8);
    FieldInRange(s, 40, 8);
    FieldInRange(s, 48, 4);
    FieldInRange(s, 52, 4);
    FieldInRange(s, 56, 8);
    FieldInRange(s, 64, 8);
    FieldInRange(s, 72, 8);
    FieldInRange(s, 80, 8);
    FieldInRange(s, 88, 8);
    hide Field, Range;
  }

  /** Any 96 bytes are the header of something. */
  lemma HeaderCanonical(s: seq<byte>)
    requires |s| >= HEADER_SIZE
    ensures HeaderFits(HeaderIn(s)) && HeaderBytes(HeaderIn(s)) == s[..HEADER_SIZE]
  {
    HeaderInFits(s);
    WordsCanonical(s, 0);
    WordsCanonical(s, 16);
    WordsCanonical(s, 32);
    FieldCanonical(s, 48, 4);
    FieldCanonical(s, 52, 4);
    WordsCanonical(s, 56);
    WordsCanonical(s, 72);
    FieldCanonical(s, 88, 8);
    HeaderPieces(s);
    hide Field, Encode, Range, HeaderFits, Unsigned, Signed, Words;
  }

  lemma HeaderPieces(s: seq<byte>)
    requires |s| >= HEADER_SIZE
    ensures s[..HEADER_SIZE] == s[0..16] + s[16..32] + s[32..48] + (s[48..52] + s[52..56]) + s[56..72] + s[72..88] + s[88..96]
  {
  }

  lemma WordsCanonical(s: seq<byte>, at: nat)
    requires at + 16 <= |s|
    ensures Words(Field(s, at, 8), Field(s, at + 8, 8)) == s[at..at + 16]
  {
    FieldCanonical(s, at, 8);
    FieldCanonical(s, at + 8, 8);
    hide Field, Encode;
    assert s[at..at + 16] == s[at..at + 8] + s[at + 8..at + 8 + 8];
  }

  lemma FieldInRange(s: seq<byte>, at: nat, width: nat)
    requires at + width <= |s|
    ensures Field(s, at, width) < Range(width)
  {
    DecodeInRange(s[at..at + width]);
  }

  lemma FieldCanonical(s: seq<byte>, at: nat, width: nat)
    requires at + width <= |s|
    ensures Encode(width, Field(s, at, width)) == s[at..at + width]
  {
    Canonical(s[at..at + width]);
  }

  /** n sized blocks that fill s exactly. */
  ghost predicate AreBlocks(s: seq<byte>, blocks: seq<seq<byte>>) {
    (forall i | 0 <= i < |blocks| :: |blocks[i]| < Range(4)) && s == BlockBytes(blocks)
  }

  /** The first block of a run of blocks can be cut off. */
  lemma FirstBlock(s: seq<byte>, blocks: seq<seq<byte>>)
    requires AreBlocks(s, blocks) && blocks != []
    ensures |s| >= 4 && 4 + Decode(s[..4]) <= |s| && Decode(s[..4]) == |blocks[0]|
    ensures s[4..4 + |blocks[0]|] == blocks[0] && AreBlocks(s[4 + |blocks[0]|..], blocks[1..])
  {
    var size := |blocks[0]|;
    RoundTrip(4, size);
    hide Encode, Decode, Range;
    assert s == Encode(4, size) + (blocks[0] + BlockBytes(blocks[1..]));
    assert s[..4] == Encode(4, size);
    assert s[4 + size..] == BlockBytes(blocks[1..]);
  }

  /** A size that fits and the block behind it can be put in front of a run of blocks. */
  lemma BlockInFront(s: seq<byte>, blocks: seq<seq<byte>>)
    requires |s| >= 4 && 4 + Decode(s[..4]) <= |s| && AreBlocks(s[4 + Decode(s[..4])..], blocks)
    ensures AreBlocks(s, [s[4..4 + Decode(s[..4])]] + blocks)
  {
    var size := Decode(s[..4]);
    Canonical(s[..4]);
    DecodeInRange(s[..4]);
    hide Encode, Decode, Range;
    var block := s[4..4 + size];
    assert ([block] + blocks)[1..] == blocks;
    assert s == s[..4] + block + s[4 + size..];
  }

  /** Each file comes from one image only. */
  lemma {:induction false} BlocksUnique(s: seq<byte>, a: seq<seq<byte>>, b: seq<seq<byte>>)
    requires AreBlocks(s, a) && AreBlocks(s, b) && |a| == |b|
    ensures a == b
  {
    if a != [] {
      FirstBlock(s, a);
      FirstBlock(s, b);
      BlocksUnique(s[4 + |a[0]|..], a[1..], b[1..]);
      assert a == [a[0]] + a[1..] && b == [b[0]] + b[1..];
    }
  }

  lemma FileUnique(a: Image, b: Image)
    requires ImageFits(a) && ImageFits(b) && FileOf(a) == FileOf(b)
    ensures a == b
  {
    FileParts(a);
    FileParts(b);
    BlocksUnique(BlockBytes(a.blocks), a.blocks, b.blocks);
  }

  /** Where the parts of a file lie. */
  lemma FileParts(img: Image)
    requires ImageFits(img)
    ensures var s, n := FileOf(img), |img.level0|;
            && |s| >= HEADER_SIZE + n && HeaderIn(s) == img.header
            && s[HEADER_SIZE..HEADER_SIZE + n] == img.level0 && s[HEADER_SIZE + n..] == BlockBytes(img.blocks)
  {
    HeaderRoundTrip(img.header);
    var s := FileOf(img);
    assert s[..HEADER_SIZE] == HeaderBytes(img.header);
    HeaderPrefix(s, HeaderBytes(img.header));
  }

  lemma HeaderPrefix(s: seq<byte>, t: seq<byte>)
    requires |s| >= HEADER_SIZE && |t| == HEADER_SIZE && s[..HEADER_SIZE] == t
    ensures HeaderIn(s) == HeaderIn(t)
  {
    FieldPrefix(s, t, 0, 8);
    FieldPrefix(s, t, 8, 8);
    FieldPrefix(s, t, 16, 8);
    FieldPrefix(s, t, 24, 8);
    FieldPrefix(s, t, 32, 8);
    FieldPrefix(s, t, 40, 8);
    FieldPrefix(s, t, 48, 4);
    FieldPrefix(s, t, 52, 4);
    FieldPrefix(s, t, 56, 8);
    FieldPrefix(s, t, 64, 8);
    FieldPrefix(s, t, 72, 8);
    FieldPrefix(s, t, 80, 8);
    FieldPrefix(s, t, 88, 8);
    hide Field;
  }

  lemma FieldPrefix(s: seq<byte>, t: seq<byte>, at: nat, width: nat)
    requires at + width <= |t| <= |s| && s[..|t|] == t
    ensures Field(s, at, width) == Field(t, at, width)
  {
    hide Decode;
    assert s[..|t|][at..at + width] == s[at..at + width];
  }

  // ---------------------------------------------------------------- the pre-scan

  ghost predicate HasBlocks(s: seq<byte>, n: nat) {
    exists blocks :: |blocks| == n && AreBlocks(s, blocks)
  }

  lemma HasNoBlocks(s: seq<byte>)
    ensures HasBlocks(s, 0) <==> s == []
  {
    if s == [] {
      assert AreBlocks(s, []);
    }
  }

  lemma HasBlocksStep(s: seq<byte>, n: nat)
    requires n > 0
    ensures HasBlocks(s, n) <==> |s| >= 4 && 4 + Decode(s[..4]) <= |s| && HasBlocks(s[4 + Decode(s[..4])..], n - 1)
  {
    if HasBlocks(s, n) {
      var blocks :| |blocks| == n && AreBlocks(s, blocks);
      FirstBlock(s, blocks);
    }
    if |s| >= 4 && 4 + Decode(s[..4]) <= |s| && HasBlocks(s[4 + Decode(s[..4])..], n - 1) {
      var blocks :| |blocks| == n - 1 && AreBlocks(s[4 + Decode(s[..4])..], blocks);
      BlockInFront(s, blocks);
    }
  }

  /** loadIndex first skips through the file. A stream that failed to read reports position -1 and does not
      move any more; one that was moved beyond the end fails at its next read. */
  method PreScan(input: seq<byte>, start: nat, count: nat) returns (oldIndex: bool)
    ensures oldIndex <==> start > |input| || !HasBlocks(input[start..], count)
  {
    hide HasBlocks, Decode;
    var pos, failed := start, false;
    oldIndex := false;
    for i := 0 to count
      invariant !oldIndex && start <= pos
      invariant failed || pos > |input| ==> start > |input| || !HasBlocks(input[start..], count)
      invariant !failed && pos <= |input| ==> (HasBlocks(input[start..], count) <==> HasBlocks(input[pos..], count - i))
    {
      if !failed && pos <= |input| {
        HasBlocksStep(input[pos..], count - i);
      }
      if failed || pos >= |input| {
        oldIndex := true;
        break;
      }
      if pos + 4 > |input| {
        failed := true;
      } else {
        var linkListSize := Decode(input[pos..pos + 4]);
        assert input[pos..][..4] == input[pos..pos + 4];
        if 4 + linkListSize <= |input[pos..]| {
          assert input[pos..][4 + linkListSize..] == input[pos + 4 + linkListSize..];
        }
        pos := pos + 4;
        if linkListSize != 0 {
          pos := pos + linkListSize;
        }
      }
    }
    if !oldIndex && !failed && pos <= |input| {
      HasNoBlocks(input[pos..]);
    }
    if failed || pos != |input| {
      oldIndex := true;
    }
  }

  // ---------------------------------------------------------------- saving

  ghost function HeaderOf(ix: FlatIndex): Header
    reads ix
  {
    Header(0, ix.maxElements, ix.count, ix.lay.SizeDataPerElement(), ix.lay.LabelOffset(), ix.lay.OffsetData(),
           ix.maxlevel, ix.enterpoint, ix.lay.maxM, ix.lay.maxM0, ix.m, ix.mult, ix.efConstruction)
  }

  /** The size written in front of the higher lists of an element, an unsigned int. */
  function SavedSize(lay: Layout, level: nat): (size: nat)
    ensures size < Range(4) && size <= level * lay.SizeLinksPerElement()
  {
    if level > 0 then (lay.SizeLinksPerElement() * level) % Range(4) else 0
  }

  /** The level an element gets whose higher lists have this size. */
  function LevelFor(lay: Layout, size: nat): (level: nat)
    ensures level * lay.SizeLinksPerElement() <= size < (level + 1) * lay.SizeLinksPerElement()
  {
    QuotientIsNat(size, lay.SizeLinksPerElement());
    size / lay.SizeLinksPerElement()
  }

  lemma QuotientIsNat(x: nat, size: nat)
    requires size > 0
    ensures x / size >= 0 && (x / size) * size <= x < (x / size + 1) * size
  {
    var q := x / size;
    assert x == size * q + x % size;
    assert (q + 1) * size == size * q + size;
  }

  /** An element keeps its level exactly when the size of its higher lists fits in an unsigned int. */
  lemma LevelSurvives(lay: Layout, level: nat)
    ensures LevelFor(lay, SavedSize(lay, level)) == level <==> level * lay.SizeLinksPerElement() < Range(4)
  {
    var size := lay.SizeLinksPerElement();
    if level * size < Range(4) {
      assert level > 0 ==> SavedSize(lay, level) == level * size;
      QuotientOf(level, size);
    } else {
      QuotientBelow(SavedSize(lay, level), level, size);
    }
  }

  lemma QuotientOf(q: nat, size: nat)
    requires size > 0
    ensures (q * size) / size == q
  {
    var r := q * size;
    assert r == (r / size) * size + r % size;
    if r / size < q {
      ProductGap(r / size, q, size);
    } else if r / size > q {
      ProductGap(q, r / size, size);
    }
  }

  lemma ProductGap(a: nat, b: nat, size: nat)
    requires a < b
    ensures a * size + size <= b * size
  {
    assert b * size == (a + 1) * size + (b - (a + 1)) * size;
    assert (b - (a + 1)) * size >= 0;
  }

  lemma QuotientBelow(x: nat, q: nat, size: nat)
    requires size > 0 && x < q * size
    ensures x / size < q
  {
    LevelBelow(x, size);
    if x / size >= q {
      MemoryBelow(q, x / size, size);
    }
  }

  ghost function SavedBlocks(lay: Layout, uppers: seq<seq<byte>>, levels: seq<nat>): (blocks: seq<seq<byte>>)
    requires |levels| <= |uppers| && forall c | 0 <= c < |levels| :: levels[c] * lay.SizeLinksPerElement() <= |uppers[c]|
    ensures |blocks| == |levels| && forall c | 0 <= c < |levels| :: |blocks[c]| == SavedSize(lay, levels[c])
  {
    seq(|levels|, c requires 0 <= c < |levels| => uppers[c][..SavedSize(lay, levels[c])])
  }

  ghost function ImageOf(ix: FlatIndex): (img: Image)
    requires ix.Shape()
    reads ix, ix.memory, ix.linkLists, ix.elementLevels
    ensures |img.level0| == ix.count * ix.lay.SizeDataPerElement() && |img.blocks| == ix.count
    ensures HeaderFits(img.header) ==> ImageFits(img)
  {
    MemoryBelow(ix.count, ix.maxElements, ix.lay.SizeDataPerElement());
    Image(HeaderOf(ix), ix.memory[..ix.count * ix.lay.SizeDataPerElement()],
          SavedBlocks(ix.lay, ix.linkLists[..], ix.elementLevels[..ix.count]))
  }

  lemma MemoryBelow(i: nat, n: nat, size: nat)
    requires i <= n
    ensures i * size <= n * size
  {
  }

  lemma {:induction false} OneMoreBlock(blocks: seq<seq<byte>>, block: seq<byte>)
    ensures BlockBytes(blocks + [block]) == BlockBytes(blocks) + Encode(4, |block|) + block
  {
    hide Encode;
    if blocks == [] {
      assert ([] + [block])[1..] == [];
    } else {
      OneMoreBlock(blocks[1..], block);
      assert (blocks + [block])[1..] == blocks[1..] + [block];
      assert (blocks + [block])[0] == blocks[0];
    }
  }

  /** Which bytes of a file hold which field of the index. */
  ghost predicate SavedFields(ix: FlatIndex, output: seq<byte>)
    reads ix
  {
    && |output| >= 96
    && Decode(output[0..8]) == 0 && Decode(output[8..16]) == ix.maxElements && Decode(output[16..24]) == ix.count
    && Decode(output[24..32]) == ix.lay.maxM0 * 4 + 4 + ix.lay.dataSize + 8
    && Decode(output[32..40]) == ix.lay.maxM0 * 4 + 4 + ix.lay.dataSize && Decode(output[40..48]) == ix.lay.maxM0 * 4 + 4
    && Decode(output[48..52]) == (if ix.maxlevel < 0 then ix.maxlevel + 0x1_0000_0000 else ix.maxlevel)
    && Decode(output[52..56]) == ix.enterpoint && Decode(output[56..64]) == ix.lay.maxM && Decode(output[64..72]) == ix.lay.maxM0
    && Decode(output[72..80]) == ix.m && Decode(output[80..88]) == ix.mult && Decode(output[88..96]) == ix.efConstruction
  }

  /** Behind the fields lies the base memory in use, then for each element the size of its higher lists, cut to
      an unsigned int, and so many of their bytes. */
  ghost predicate SavedElements(ix: FlatIndex, output: seq<byte>)
    reads ix, ix.memory, ix.linkLists, ix.elementLevels
  {
    exists blocks: seq<seq<byte>> ::
      && |blocks| == ix.count <= ix.elementLevels.Length && ix.count <= ix.linkLists.Length
      && ix.count * ix.lay.SizeDataPerElement() <= ix.memory.Length
      && (forall c | 0 <= c < ix.count ::
            |blocks[c]| == (ix.elementLevels[c] * (ix.lay.maxM * 4 + 4)) % 0x1_0000_0000 && blocks[c] <= ix.linkLists[c])
      && |output| >= 96 && output[96..] == ix.memory[..ix.count * ix.lay.SizeDataPerElement()] + BlockBytes(blocks)
  }

  lemma SavedInImage(ix: FlatIndex)
    requires ix.Shape() && HeaderFits(HeaderOf(ix))
    ensures SavedFields(ix, FileOf(ImageOf(ix))) && SavedElements(ix, FileOf(ImageOf(ix)))
  {
    SavedHeader(ix);
    SavedRest(ix);
  }

  lemma SavedHeader(ix: FlatIndex)
    requires ix.Shape() && HeaderFits(HeaderOf(ix))
    ensures SavedFields(ix, FileOf(ImageOf(ix)))
  {
    var output, h := FileOf(ImageOf(ix)), HeaderOf(ix);
    FileParts(ImageOf(ix));
    assert |output| >= 96 && HeaderIn(output) == h;
    hide Decode, Range, FileOf, HeaderFits, ImageOf, HeaderIn, Fits;
    FieldsIn(output, h);
  }

  lemma FieldsIn(s: seq<byte>, h: Header)
    requires |s| >= 96 && HeaderIn(s) == h
    ensures Decode(s[0..8]) == h.offsetLevel0 && Decode(s[8..16]) == h.maxElements && Decode(s[16..24]) == h.count
    ensures Decode(s[24..32]) == h.sizeDataPerElement && Decode(s[32..40]) == h.labelOffset && Decode(s[40..48]) == h.offsetData
    ensures Decode(s[48..52]) == (if h.maxlevel < 0 then h.maxlevel + 0x1_0000_0000 else h.maxlevel)
    ensures Decode(s[52..56]) == h.enterpoint && Decode(s[56..64]) == h.maxM && Decode(s[64..72]) == h.maxM0
    ensures Decode(s[72..80]) == h.m && Decode(s[80..88]) == h.mult && Decode(s[88..96]) == h.efConstruction
  {
    HeaderInFits(s);
    hide Decode, Range;
  }

  lemma SizeSaved(lay: Layout, level: nat)
    ensures SavedSize(lay, level) == (level * (lay.maxM * 4 + 4)) % 0x1_0000_0000
  {
    Widths();
    hide Range;
    var size := level * (lay.maxM * 4 + 4);
    assert lay.SizeLinksPerElement() * level == size;
    if level == 0 {
      assert size == 0;
    }
  }

  lemma SavedRest(ix: FlatIndex)
    requires ix.Shape() && HeaderFits(HeaderOf(ix))
    ensures SavedElements(ix, FileOf(ImageOf(ix)))
  {
    var img := ImageOf(ix);
    var output := FileOf(img);
    MemoryBelow(ix.count, ix.maxElements, ix.lay.SizeDataPerElement());
    FileParts(img);
    hide Decode, Range, FileOf, HeaderFits, SavedSize, HeaderOf, HeaderIn, BlockBytes;
    TwoParts(output, 96, 96 + |img.level0|);
    forall c | 0 <= c < ix.count
      ensures |img.blocks[c]| == (ix.elementLevels[c] * (ix.lay.maxM * 4 + 4)) % 0x1_0000_0000 && img.blocks[c] <= ix.linkLists[c]
    {
      SizeSaved(ix.lay, ix.elementLevels[c]);
    }
    hide Fits, ImageOf;
  }

  lemma TwoParts(s: seq<byte>, i: nat, j: nat)
    requires i <= j <= |s|
    ensures s[i..] == s[i..j] + s[j..]
  {
  }

  /** saveIndex */
  method SaveIndex(ix: FlatIndex) returns (output: seq<byte>)
    requires ix.Shape() && HeaderFits(HeaderOf(ix))
    ensures output == FileOf(ImageOf(ix))
    ensures SavedFields(ix, output) && SavedElements(ix, output)
  {
    output := WriteFile(ix);
    SavedInImage(ix);
  }

  /** The writes of saveIndex. */
  method WriteFile(ix: FlatIndex) returns (output: seq<byte>)
    requires ix.Shape() && HeaderFits(HeaderOf(ix))
    ensures output == FileOf(ImageOf(ix))
  {
    hide Encode, Range;
    ghost var img := ImageOf(ix);
    MemoryBelow(ix.count, ix.maxElements, ix.lay.SizeDataPerElement());
    output := Words(0, ix.maxElements) + Words(ix.count, ix.lay.SizeDataPerElement()) + Words(ix.lay.LabelOffset(), ix.lay.OffsetData());
    output := output + (Encode(4, Unsigned(ix.maxlevel)) + Encode(4, ix.enterpoint));
    output := output + Words(ix.lay.maxM, ix.lay.maxM0) + Words(ix.m, ix.mult) + Encode(8, ix.efConstruction);
    assert output == HeaderBytes(img.header);
    output := output + ix.memory[..ix.count * ix.lay.SizeDataPerElement()];
    ghost var front := output;
    for i := 0 to ix.count
      invariant output == front + BlockBytes(img.blocks[..i])
    {
      var linkListSize := SavedSize(ix.lay, ix.elementLevels[i]);
      output := output + Encode(4, linkListSize);
      if linkListSize != 0 {
        output := output + ix.linkLists[i][..linkListSize];
      }
      OneMoreBlock(img.blocks[..i], img.blocks[i]);
      assert img.blocks[..i + 1] == img.blocks[..i] + [img.blocks[i]];
    }
    assert img.blocks[..ix.count] == img.blocks;
  }

  // ---------------------------------------------------------------- loading

  /** The capacity of the loaded index: the one asked for if the elements fit in it, the saved one otherwise. */
  function LoadedMax(limit: nat, h: Header): nat {
    if limit < h.count then h.maxElements else limit
  }

  function LayoutOf(h: Header, dataSize: nat): Layout {
    Layout(h.maxM, h.maxM0, dataSize)
  }

  /** What loadIndex takes for granted about a header: it was written for vectors of the same size, and the
      elements fit in the memory that is allocated. */
  predicate Sound(h: Header, dataSize: nat, limit: nat) {
    var lay := LayoutOf(h, dataSize);
    && h.offsetLevel0 == 0 && h.sizeDataPerElement == lay.SizeDataPerElement()
    && h.labelOffset == lay.LabelOffset() && h.offsetData == lay.OffsetData()
    && h.count <= LoadedMax(limit, h)
  }

  datatype LoadResult = Loaded(index: FlatIndex) | Truncated | OldIndex | Unsound

  /** A file that the pre-scan takes for an index in the current format. */
  ghost predicate IsIndexFile(input: seq<byte>, img: Image) {
    ImageFits(img) && input == FileOf(img)
  }

  ghost function NodeInImage(lay: Layout, img: Image, c: nat): (node: Node)
    requires ImageFits(img) && img.header.sizeDataPerElement == lay.SizeDataPerElement() && c < img.header.count
  {
    BlockWithin(lay.SizeDataPerElement(), c, img.header.count);
    LevelBelow(|img.blocks[c]|, lay.SizeLinksPerElement());
    NodeIn(lay, Block(img.level0, lay.SizeDataPerElement(), c), img.blocks[c], LevelFor(lay, |img.blocks[c]|))
  }

  lemma LevelBelow(x: nat, size: nat)
    requires size > 0
    ensures (x / size) * size <= x
  {
  }

  /** The elements in an image, by id. */
  ghost function TableIn(lay: Layout, img: Image): (table: seq<Node>)
    requires ImageFits(img) && img.header.sizeDataPerElement == lay.SizeDataPerElement()
    ensures |table| == img.header.count && forall c | 0 <= c < |table| :: table[c] == NodeInImage(lay, img, c)
  {
    seq(img.header.count, c requires 0 <= c < img.header.count => NodeInImage(lay, img, c))
  }

  function NamesOf(table: seq<Node>): (names: seq<nat>)
    ensures |names| == |table| && forall c | 0 <= c < |table| :: names[c] == table[c].name
  {
    seq(|table|, c requires 0 <= c < |table| => table[c].name)
  }

  ghost predicate Parameters(ix: FlatIndex, h: Header, dataSize: nat, limit: nat)
    reads ix
  {
    && ix.lay == Layout(h.maxM, h.maxM0, dataSize) && ix.maxElements == (if h.count <= limit then limit else h.maxElements) && ix.count == h.count
    && ix.enterpoint == h.enterpoint && ix.maxlevel == h.maxlevel && ix.m == h.m && ix.mult == h.mult
    && ix.efConstruction == h.efConstruction && ix.ef == 10
    && ix.memory.Length == ix.lay.MemorySize(ix.maxElements) && ix.linkLists.Length == ix.elementLevels.Length == ix.maxElements
  }

  /** The loaded index holds the elements of the image, under its parameters. */
  ghost predicate Restored(ix: FlatIndex, img: Image, dataSize: nat, limit: nat)
    requires ix.Shape()
    reads ix, ix.memory, ix.linkLists, ix.elementLevels
  {
    && Parameters(ix, img.header, dataSize, limit)
    && ImageFits(img) && img.header.sizeDataPerElement == ix.lay.SizeDataPerElement()
    && ix.Table() == TableIn(ix.lay, img) && ix.labelLookup == LookupOf(NamesOf(TableIn(ix.lay, img)))
  }

  /** The bytes of a file of the current format, cut where loadIndex cuts them. */
  lemma ScannedFile(input: seq<byte>) returns (img: Image)
    requires |input| >= HEADER_SIZE
    requires var h := HeaderIn(input);
             var start := HEADER_SIZE + Level0Size(h);
             start <= |input| && HasBlocks(input[start..], h.count)
    ensures IsIndexFile(input, img) && img.header == HeaderIn(input)
  {
    var h := HeaderIn(input);
    HeaderCanonical(input);
    hide HeaderIn, HeaderBytes, HeaderFits, Level0Size;
    var start := HEADER_SIZE + Level0Size(h);
    var blocks :| |blocks| == h.count && AreBlocks(input[start..], blocks);
    img := Image(h, input[HEADER_SIZE..start], blocks);
    ThreeParts(input, HEADER_SIZE, start);
  }

  lemma ThreeParts(s: seq<byte>, i: nat, j: nat)
    requires i <= j <= |s|
    ensures s == s[..i] + s[i..j] + s[j..]
  {
  }

  lemma FileScans(input: seq<byte>, img: Image)
    requires IsIndexFile(input, img)
    ensures |input| >= HEADER_SIZE && img.header == HeaderIn(input)
    ensures var start := HEADER_SIZE + Level0Size(img.header);
            start <= |input| && HasBlocks(input[start..], img.header.count)
  {
    FileParts(img);
    assert AreBlocks(BlockBytes(img.blocks), img.blocks);
  }

  // ---------------------------------------------------------------- the loop of loadIndex

  /** A prefix of memory holds the same blocks. */
  lemma BlockOfPrefix(memory: seq<byte>, prefix: seq<byte>, size: nat, i: nat)
    requires |prefix| <= |memory| && memory[..|prefix|] == prefix && (i + 1) * size <= |prefix|
    ensures Block(memory, size, i) == Block(prefix, size, i)
  {
    assert (i + 1) * size == i * size + size;
    var start := i * size;
    SliceOfSlice(memory, 0, |prefix|, start, start + size);
    assert memory[0..|prefix|] == prefix;
  }

  /** What the memory holds once an image has been copied into it. */
  lemma CopiedNode(lay: Layout, memory: seq<byte>, uppers: seq<seq<byte>>, levels: seq<nat>, img: Image, c: nat)
    requires ImageFits(img) && img.header.sizeDataPerElement == lay.SizeDataPerElement()
    requires Fits(lay, memory, uppers, levels) && |levels| == img.header.count && c < |levels|
    requires |img.level0| <= |memory| && memory[..|img.level0|] == img.level0
    requires img.blocks[c] == uppers[c] && levels[c] == LevelFor(lay, |img.blocks[c]|)
    ensures NodeAt(lay, memory, uppers, levels, c) == NodeInImage(lay, img, c)
  {
    hide NodeIn, Block;
    BlockWithin(lay.SizeDataPerElement(), c, img.header.count);
    BlockOfPrefix(memory, img.level0, lay.SizeDataPerElement(), c);
  }

  lemma CopiedTable(lay: Layout, memory: seq<byte>, uppers: seq<seq<byte>>, levels: seq<nat>, img: Image)
    requires ImageFits(img) && img.header.sizeDataPerElement == lay.SizeDataPerElement()
    requires |memory| == lay.MemorySize(|uppers|) && |levels| == img.header.count <= |uppers|
    requires |img.level0| <= |memory| && memory[..|img.level0|] == img.level0
    requires forall c | 0 <= c < |levels| :: img.blocks[c] == uppers[c] && levels[c] == LevelFor(lay, |img.blocks[c]|)
    ensures Fits(lay, memory, uppers, levels) && TableOf(lay, memory, uppers, levels) == TableIn(lay, img)
  {
    forall c | 0 <= c < |levels|
      ensures levels[c] * lay.SizeLinksPerElement() <= |uppers[c]|
    {
      LevelBelow(|img.blocks[c]|, lay.SizeLinksPerElement());
    }
    hide NodeAt, NodeInImage, ImageFits;
    forall c | 0 <= c < |levels|
      ensures NodeAt(lay, memory, uppers, levels, c) == NodeInImage(lay, img, c)
    {
      CopiedNode(lay, memory, uppers, levels, img, c);
    }
  }

  /** The label of an element of the image, where loadIndex finds it in the memory. */
  lemma LabelInImage(lay: Layout, memory: seq<byte>, img: Image, c: nat)
    requires ImageFits(img) && img.header.sizeDataPerElement == lay.SizeDataPerElement() && c < img.header.count
    requires |img.level0| <= |memory| && memory[..|img.level0|] == img.level0
    ensures BaseAddress(lay, c) + lay.SizeDataPerElement() <= |memory|
    ensures Decode(memory[BaseAddress(lay, c) + lay.LabelOffset()..BaseAddress(lay, c) + lay.SizeDataPerElement()]) == TableIn(lay, img)[c].name
  {
    hide Decode;
    var size := lay.SizeDataPerElement();
    BlockWithin(size, c, img.header.count);
    BlockOfPrefix(memory, img.level0, size, c);
    SliceOfBlock(memory, size, c, lay.LabelOffset(), size);
    assert Block(memory, size, c)[lay.LabelOffset()..] == Block(memory, size, c)[lay.LabelOffset()..size];
  }

  /** Memory has been allocated for the elements of an image. */
  ghost predicate Allocation(ix: FlatIndex, img: Image)
    reads ix`count
  {
    && ix.memory.Length == ix.lay.MemorySize(ix.maxElements) && ix.linkLists.Length == ix.elementLevels.Length == ix.maxElements
    && ImageFits(img) && img.header.sizeDataPerElement == ix.lay.SizeDataPerElement() && ix.count == img.header.count <= ix.maxElements
  }

  /** One round of the loop: the first of the remaining blocks is read and skipped. */
  lemma NextBlock(input: seq<byte>, pos: nat, blocks: seq<seq<byte>>, i: nat)
    requires pos <= |input| && i < |blocks| && AreBlocks(input[pos..], blocks[i..])
    ensures pos + 4 <= |input|
    ensures var size := Decode(input[pos..pos + 4]);
            && size == |blocks[i]| && pos + 4 + size <= |input| && input[pos + 4..pos + 4 + size] == blocks[i]
            && AreBlocks(input[pos + 4 + size..], blocks[i + 1..])
  {
    FirstBlock(input[pos..], blocks[i..]);
    hide AreBlocks, Decode;
    assert input[pos..][..4] == input[pos..pos + 4];
    var size := |blocks[i]|;
    assert input[pos..][4..4 + size] == input[pos + 4..pos + 4 + size];
    assert input[pos..][4 + size..] == input[pos + 4 + size..];
    assert blocks[i..][1..] == blocks[i + 1..];
  }

  /** The last loop of loadIndex. */
  method RestoreElements(ix: FlatIndex, input: seq<byte>, start: nat, ghost img: Image)
    requires Allocation(ix, img) && ix.labelLookup == map[]
    requires |img.level0| <= ix.memory.Length && ix.memory[..|img.level0|] == img.level0
    requires start <= |input| && AreBlocks(input[start..], img.blocks)
    modifies ix`labelLookup, ix.linkLists, ix.elementLevels
    ensures forall c | 0 <= c < ix.count :: ix.linkLists[c] == img.blocks[c] && ix.elementLevels[c] == LevelFor(ix.lay, |img.blocks[c]|)
    ensures ix.labelLookup == LookupOf(NamesOf(TableIn(ix.lay, img)))
  {
    ghost var names := NamesOf(TableIn(ix.lay, img));
    hide AreBlocks, Decode, LookupOf, NodeInImage, TableIn, LevelFor, HeaderFits, Range, Layout.MemorySize, Level0Size, BlockBytes;
    NoNames(names[..0]);
    var pos: nat := start;
    for i := 0 to ix.count
      invariant pos <= |input| && AreBlocks(input[pos..], img.blocks[i..])
      invariant forall c | 0 <= c < i :: ix.linkLists[c] == img.blocks[c] && ix.elementLevels[c] == LevelFor(ix.lay, |img.blocks[c]|)
      invariant ix.labelLookup == LookupOf(names[..i])
    {
      pos := RestoreElement(ix, input, pos, i, img);
      OneMoreName(names, i);
    }
    assert names[..ix.count] == names;
  }

  /** One round of that loop: the element's label, then its levels and higher lists. */
  method RestoreElement(ix: FlatIndex, input: seq<byte>, start: nat, i: nat, ghost img: Image) returns (pos: nat)
    requires Allocation(ix, img) && i < ix.count
    requires |img.level0| <= ix.memory.Length && ix.memory[..|img.level0|] == img.level0
    requires start <= |input| && AreBlocks(input[start..], img.blocks[i..])
    modifies ix`labelLookup, ix.linkLists, ix.elementLevels
    ensures pos <= |input| && AreBlocks(input[pos..], img.blocks[i + 1..])
    ensures ix.linkLists[i] == img.blocks[i] && ix.elementLevels[i] == LevelFor(ix.lay, |img.blocks[i]|)
    ensures forall c | 0 <= c < ix.linkLists.Length && c != i :: ix.linkLists[c] == old(ix.linkLists[c]) && ix.elementLevels[c] == old(ix.elementLevels[c])
    ensures ix.labelLookup == old(ix.labelLookup)[TableIn(ix.lay, img)[i].name := i]
  {
    hide AreBlocks, Decode, LookupOf, NodeInImage, TableIn, LevelFor, HeaderFits, Range, Layout.MemorySize, Level0Size, BlockBytes;
    NextBlock(input, start, img.blocks, i);
    var name := ReadLabel(ix, i, img);
    ix.labelLookup := ix.labelLookup[name := i];
    pos := RestoreLists(ix, input, start, i);
  }

  /** The size and the higher lists of one element. */
  method RestoreLists(ix: FlatIndex, input: seq<byte>, start: nat, i: nat) returns (pos: nat)
    requires i < ix.linkLists.Length == ix.elementLevels.Length
    requires start + 4 <= |input| && start + 4 + Decode(input[start..start + 4]) <= |input|
    modifies ix.linkLists, ix.elementLevels
    ensures pos == start + 4 + Decode(input[start..start + 4])
    ensures ix.linkLists[i] == input[start + 4..pos] && ix.elementLevels[i] == LevelFor(ix.lay, |ix.linkLists[i]|)
    ensures forall c | 0 <= c < ix.linkLists.Length && c != i :: ix.linkLists[c] == old(ix.linkLists[c]) && ix.elementLevels[c] == old(ix.elementLevels[c])
  {
    hide Decode, LevelFor;
    pos := start;
    var linkListSize := Decode(input[pos..pos + 4]);
    pos := pos + 4;
    if linkListSize == 0 {
      SizeZero(ix.lay);
      ix.elementLevels[i] := 0;
      ix.linkLists[i] := [];
    } else {
      ix.elementLevels[i] := LevelFor(ix.lay, linkListSize);
      ix.linkLists[i] := input[pos..pos + linkListSize];
      pos := pos + linkListSize;
    }
  }

  /** getExternalLabel while the index is still being loaded. */
  method ReadLabel(ix: FlatIndex, c: nat, ghost img: Image) returns (name: nat)
    requires ix.memory.Length == ix.lay.MemorySize(ix.maxElements)
    requires ImageFits(img) && img.header.sizeDataPerElement == ix.lay.SizeDataPerElement() && c < img.header.count
    requires |img.level0| <= ix.memory.Length && ix.memory[..|img.level0|] == img.level0
    ensures name == TableIn(ix.lay, img)[c].name
  {
    LabelInImage(ix.lay, ix.memory[..], img, c) by {
      assert ix.memory[..][..|img.level0|] == ix.memory[..|img.level0|];
    }
    hide TableIn, Decode, BaseAddress;
    var start := BaseAddress(ix.lay, c) + ix.lay.LabelOffset();
    assert ix.memory[start..start + 8] == ix.memory[..][start..start + 8];
    name := Decode(ix.memory[start..start + 8]);
  }

  lemma SizeZero(lay: Layout)
    ensures LevelFor(lay, 0) == 0
  {
  }

  lemma NoNames(names: seq<nat>)
    requires names == []
    ensures LookupOf(names) == map[]
  {
  }

  lemma OneMoreName(names: seq<nat>, i: nat)
    requires i < |names|
    ensures LookupOf(names[..i + 1]) == LookupOf(names[..i])[names[i] := i]
  {
    assert names[..i + 1][..i] == names[..i];
  }

  // ---------------------------------------------------------------- loadIndex

  /** loadIndex, for a file in the current format. A file that ends within the header, one that the pre-scan
      takes for the old format, and a header for another kind of vector are told apart and not read. */
  method LoadIndex(input: seq<byte>, dataSize: nat, limit: nat) returns (result: LoadResult, ghost img: Image)
    ensures result.Loaded? ==>
              && fresh(result.index) && fresh(result.index.memory) && fresh(result.index.linkLists) && fresh(result.index.elementLevels)
              && result.index.Valid() && IsIndexFile(input, img) && Restored(result.index, img, dataSize, limit)
    ensures result.Loaded? <==> exists x :: IsIndexFile(input, x) && Sound(x.header, dataSize, limit)
    ensures result.OldIndex? <==> |input| >= HEADER_SIZE && forall x :: !IsIndexFile(input, x)
  {
    if |input| < HEADER_SIZE {
      NoHeader(input);
      return Truncated, Image(Header(0, 0, 0, 0, 0, 0, 0, 0, 0, 0, 0, 0, 0), [], []);
    }
    var h := HeaderIn(input);
    var start := HEADER_SIZE + Level0Size(h);
    var oldIndex := PreScan(input, start, h.count);
    img := Image(h, [], []);
    if oldIndex {
      NotScanned(input);
      return OldIndex, img;
    }
    img := ScannedFile(input);
    OnlyImage(input, img);
    if !Sound(h, dataSize, limit) {
      return Unsound, img;
    }
    var ix := ReadElements(input, h, dataSize, limit, img);
    result := Loaded(ix);
  }

  lemma NoHeader(input: seq<byte>)
    requires |input| < HEADER_SIZE
    ensures forall x :: !IsIndexFile(input, x)
  {
    forall x | IsIndexFile(input, x) ensures false { FileScans(input, x); }
  }

  lemma NotScanned(input: seq<byte>)
    requires |input| >= HEADER_SIZE
    requires var h := HeaderIn(input);
             var start := HEADER_SIZE + Level0Size(h);
             start > |input| || !HasBlocks(input[start..], h.count)
    ensures forall x :: !IsIndexFile(input, x)
  {
    forall x | IsIndexFile(input, x) ensures false { FileScans(input, x); }
  }

  lemma OnlyImage(input: seq<byte>, img: Image)
    requires IsIndexFile(input, img)
    ensures forall x :: IsIndexFile(input, x) ==> x == img
  {
    forall x | IsIndexFile(input, x) ensures x == img { FileUnique(x, img); }
  }

  lemma Level0Below(h: Header, lay: Layout, n: nat)
    requires h.sizeDataPerElement == lay.SizeDataPerElement() && h.count <= n
    ensures Level0Size(h) <= lay.MemorySize(n)
  {
    MemoryBelow(h.count, n, lay.SizeDataPerElement());
  }

  /** The header fields are assigned, memory is allocated for the capacity and the base memory is read. */
  method ReadBase(h: Header, level0: seq<byte>, dataSize: nat, limit: nat) returns (ix: FlatIndex)
    requires Sound(h, dataSize, limit) && |level0| == Level0Size(h)
    ensures fresh(ix) && fresh(ix.memory) && fresh(ix.linkLists) && fresh(ix.elementLevels)
    ensures Parameters(ix, h, dataSize, limit) && ix.labelLookup == map[]
    ensures |level0| <= ix.memory.Length && ix.memory[..|level0|] == level0
  {
    hide Level0Size, Layout.MemorySize, Range;
    var lay := LayoutOf(h, dataSize);
    ix := new FlatIndex.Allocated(lay, h.m, h.efConstruction, h.mult, LoadedMax(limit, h));
    ix.count := h.count;
    ix.maxlevel := h.maxlevel;
    ix.enterpoint := h.enterpoint;
    Level0Below(h, lay, ix.maxElements);
    ReadLevel0(ix, level0);
  }

  /** The rest of loadIndex. */
  method ReadElements(input: seq<byte>, h: Header, dataSize: nat, limit: nat, ghost img: Image) returns (ix: FlatIndex)
    requires IsIndexFile(input, img) && img.header == h && Sound(h, dataSize, limit)
    ensures fresh(ix) && fresh(ix.memory) && fresh(ix.linkLists) && fresh(ix.elementLevels)
    ensures ix.Valid() && Restored(ix, img, dataSize, limit)
  {
    hide HeaderIn, HeaderFits, Level0Size, TableIn, Layout.MemorySize, FlatIndex.Valid, FlatIndex.Table, FlatIndex.Shape, LookupOf, NamesOf, Range;
    var start := HEADER_SIZE + Level0Size(h);
    assert start <= |input| && input[HEADER_SIZE..start] == img.level0 && AreBlocks(input[start..], img.blocks) by { FileParts(img); }
    hide FileOf, BlockBytes, AreBlocks;
    var level0 := input[HEADER_SIZE..start];
    ix := ReadBase(h, level0, dataSize, limit);
    FillElements(ix, input, start, img);
  }

  /** The elements of the image are read behind its base memory. */
  method FillElements(ix: FlatIndex, input: seq<byte>, start: nat, ghost img: Image)
    requires Allocation(ix, img) && ix.labelLookup == map[]
    requires |img.level0| <= ix.memory.Length && ix.memory[..|img.level0|] == img.level0
    requires start <= |input| && AreBlocks(input[start..], img.blocks)
    modifies ix`labelLookup, ix`added, ix.linkLists, ix.elementLevels
    ensures ix.Shape() && ix.Valid() && ix.Table() == TableIn(ix.lay, img) && ix.labelLookup == LookupOf(NamesOf(TableIn(ix.lay, img)))
  {
    hide AreBlocks, BlockBytes, ImageFits, HeaderFits, LookupOf, NodeAt, NodeInImage, LevelFor, Fits, Level0Size, TableOf, TableIn, NamesOf;
    hide Layout.MemorySize, Layout.SizeDataPerElement, Range, FlatIndex.Valid, FlatIndex.Table, FlatIndex.Shape;
    RestoreElements(ix, input, start, img);
    ElementsRead(ix, img);
  }

  /** The memory now stands for the elements of the image, as if they had been added in this order. */
  ghost method ElementsRead(ix: FlatIndex, img: Image)
    requires Allocation(ix, img)
    requires |img.level0| <= ix.memory.Length && ix.memory[..|img.level0|] == img.level0
    requires forall c | 0 <= c < ix.count :: ix.linkLists[c] == img.blocks[c] && ix.elementLevels[c] == LevelFor(ix.lay, |img.blocks[c]|)
    requires ix.labelLookup == LookupOf(NamesOf(TableIn(ix.lay, img)))
    modifies ix`added
    ensures ix.Shape() && ix.Valid() && ix.Table() == TableIn(ix.lay, img)
  {
    hide HeaderFits, Range, LookupOf, NodeAt, NodeInImage, LevelFor, TableOf, TableIn, Level0Size, Layout.MemorySize;
    assert ix.memory[..][..|img.level0|] == ix.memory[..|img.level0|];
    CopiedTable(ix.lay, ix.memory[..], ix.linkLists[..], ix.elementLevels[..ix.count], img);
    hide Fits;
    ix.added := AddedIn(ix.Table());
    assert LabelsOf(ix.added) == NamesOf(ix.Table());
  }

  /** input.read into the base memory. */
  method ReadLevel0(ix: FlatIndex, level0: seq<byte>)
    requires |level0| <= ix.memory.Length
    modifies ix.memory
    ensures ix.memory[..|level0|] == level0
  {
    ix.CopyTo(0, level0);
    assert ix.memory[..][..|level0|] == ix.memory[..|level0|];
  }

  ghost function AddedIn(table: seq<Node>): (added: seq<(nat, seq<byte>)>)
    ensures |added| == |table| && forall c | 0 <= c < |table| :: added[c] == (table[c].name, table[c].vector)
  {
    seq(|table|, c requires 0 <= c < |table| => (table[c].name, table[c].vector))
  }

  // ---------------------------------------------------------------- round trip

  /** Every block of higher lists has a size that fits in an unsigned int. */
  predicate BlocksFit(lay: Layout, levels: seq<nat>) {
    forall c | 0 <= c < |levels| :: levels[c] * lay.SizeLinksPerElement() < Range(4)
  }

  /** Cutting a block of higher lists after its last list keeps the element. */
  lemma CutNode(lay: Layout, block: seq<byte>, upper: seq<byte>, level: nat)
    requires |block| == lay.SizeDataPerElement() && level * lay.SizeLinksPerElement() <= |upper|
    ensures NodeIn(lay, block, upper[..level * lay.SizeLinksPerElement()], level) == NodeIn(lay, block, upper, level)
  {
    hide ListIn;
    var size := lay.SizeLinksPerElement();
    var cut := upper[..level * size];
    var a, b := NodeIn(lay, block, cut, level), NodeIn(lay, block, upper, level);
    forall l | 0 <= l <= level
      ensures a.lists[l] == b.lists[l]
    {
      if l > 0 {
        BlockWithin(size, l - 1, level);
        BlockOfPrefix(upper, cut, size, l - 1);
      }
    }
  }

  /** The image taken of an index holds its elements. */
  lemma SavedTable(lay: Layout, memory: seq<byte>, uppers: seq<seq<byte>>, levels: seq<nat>, img: Image)
    requires Fits(lay, memory, uppers, levels) && BlocksFit(lay, levels)
    requires ImageFits(img) && img.header.count == |levels| && img.header.sizeDataPerElement == lay.SizeDataPerElement()
    requires |img.level0| <= |memory| && img.level0 == memory[..|img.level0|]
    requires img.blocks == SavedBlocks(lay, uppers, levels)
    ensures TableIn(lay, img) == TableOf(lay, memory, uppers, levels)
  {
    hide NodeIn, HeaderFits, Range;
    forall c | 0 <= c < |levels|
      ensures NodeInImage(lay, img, c) == NodeAt(lay, memory, uppers, levels, c)
    {
      var size := lay.SizeLinksPerElement();
      BlockWithin(lay.SizeDataPerElement(), c, |levels|);
      BlockWithin(lay.SizeDataPerElement(), c, |uppers|);
      BlockOfPrefix(memory, img.level0, lay.SizeDataPerElement(), c);
      LevelSurvives(lay, levels[c]);
      SavedWhole(lay, levels[c]);
      CutNode(lay, Block(memory, lay.SizeDataPerElement(), c), uppers[c], levels[c]);
    }
    hide NodeInImage, NodeAt;
  }

  /** It does so exactly when all block sizes fit: an element with a larger one comes back on a lower level. */
  lemma SavedTableExactly(lay: Layout, memory: seq<byte>, uppers: seq<seq<byte>>, levels: seq<nat>, img: Image)
    requires Fits(lay, memory, uppers, levels)
    requires ImageFits(img) && img.header.count == |levels| && img.header.sizeDataPerElement == lay.SizeDataPerElement()
    requires |img.level0| <= |memory| && img.level0 == memory[..|img.level0|]
    requires img.blocks == SavedBlocks(lay, uppers, levels)
    ensures TableIn(lay, img) == TableOf(lay, memory, uppers, levels) <==> BlocksFit(lay, levels)
  {
    if BlocksFit(lay, levels) {
      SavedTable(lay, memory, uppers, levels, img);
    } else {
      hide HeaderFits, Range, LevelIn;
      var c :| 0 <= c < |levels| && levels[c] * lay.SizeLinksPerElement() >= Range(4);
      LevelSurvives(lay, levels[c]);
      assert |NodeInImage(lay, img, c).lists| == LevelFor(lay, SavedSize(lay, levels[c])) + 1;
      assert |NodeAt(lay, memory, uppers, levels, c).lists| == levels[c] + 1;
    }
  }

  lemma SavedWhole(lay: Layout, level: nat)
    requires level * lay.SizeLinksPerElement() < Range(4)
    ensures SavedSize(lay, level) == level * lay.SizeLinksPerElement()
  {
  }

  /** The names in the table of a valid index are those its lookup table was built from. */
  lemma NamesAreLabels(table: seq<Node>, added: seq<(nat, seq<byte>)>)
    requires |added| == |table| && forall c | 0 <= c < |table| :: table[c].name == added[c].0
    ensures NamesOf(table) == LabelsOf(added)
  {
  }

  /** The header of an index passes the checks of loadIndex, unless the vectors or the capacity do not fit. */
  lemma HeaderIsSound(ix: FlatIndex, limit: nat)
    requires ix.Shape()
    ensures Sound(HeaderOf(ix), ix.lay.dataSize, limit)
  {
  }

  /** A program that saves an index and loads the file gets a valid index with the same lookup table, entry
      point, level and parameters. It has the same elements, lists, vectors and labels exactly when all blocks
      of higher lists have sizes below 2^32. Only ef starts from its default, and the capacity is the one asked
      for if the elements fit in it. */
  method SaveThenLoad(ix: FlatIndex, limit: nat) returns (result: LoadResult)
    requires ix.Valid() && HeaderFits(HeaderOf(ix))
    ensures result.Loaded? && result.index.Valid()
    ensures result.index.Table() == ix.Table() <==> BlocksFit(ix.lay, ix.elementLevels[..ix.count])
    ensures result.index.labelLookup == ix.labelLookup
    ensures result.index.count == ix.count && result.index.lay == ix.lay && result.index.m == ix.m && result.index.mult == ix.mult
    ensures result.index.efConstruction == ix.efConstruction && result.index.ef == 10
    ensures result.index.enterpoint == ix.enterpoint && result.index.maxlevel == ix.maxlevel
    ensures result.index.maxElements == if ix.count <= limit then limit else ix.maxElements
  {
    hide Fits, TableOf, Range, HeaderFits, BlocksFit, LookupOf, LabelsOf, BlockBytes, HeaderBytes, AreBlocks;
    ghost var saved := ImageOf(ix);
    var output := SaveIndex(ix);
    ghost var img;
    HeaderIsSound(ix, limit);
    assert IsIndexFile(output, saved);
    result, img := LoadIndex(output, ix.lay.dataSize, limit);
    FileUnique(img, saved);
    SavedImageTable(ix);
  }

  /** The image of an index holds its table exactly when all block sizes fit; its names are in any case those
      the lookup table was built from. */
  lemma SavedImageTable(ix: FlatIndex)
    requires ix.Valid() && HeaderFits(HeaderOf(ix))
    ensures TableIn(ix.lay, ImageOf(ix)) == ix.Table() <==> BlocksFit(ix.lay, ix.elementLevels[..ix.count])
    ensures LookupOf(NamesOf(TableIn(ix.lay, ImageOf(ix)))) == ix.labelLookup
  {
    hide HeaderFits, BlocksFit, LookupOf;
    var img := ImageOf(ix);
    MemoryBelow(ix.count, ix.maxElements, ix.lay.SizeDataPerElement());
    assert ix.memory[..][..|img.level0|] == ix.memory[..|img.level0|];
    SavedTableExactly(ix.lay, ix.memory[..], ix.linkLists[..], ix.elementLevels[..ix.count], img);
    SavedNames(ix.lay, ix.memory[..], ix.linkLists[..], ix.elementLevels[..ix.count], img);
    NamesAreLabels(ix.Table(), ix.added);
  }

  /** The names are in the base memory, which is saved as a whole. */
  lemma SavedNames(lay: Layout, memory: seq<byte>, uppers: seq<seq<byte>>, levels: seq<nat>, img: Image)
    requires Fits(lay, memory, uppers, levels)
    requires ImageFits(img) && img.header.count == |levels| && img.header.sizeDataPerElement == lay.SizeDataPerElement()
    requires |img.level0| <= |memory| && img.level0 == memory[..|img.level0|]
    ensures NamesOf(TableIn(lay, img)) == NamesOf(TableOf(lay, memory, uppers, levels))
  {
    hide HeaderFits, Range, ListIn;
    forall c | 0 <= c < |levels|
      ensures NodeInImage(lay, img, c).name == NodeAt(lay, memory, uppers, levels, c).name
    {
      BlockWithin(lay.SizeDataPerElement(), c, |levels|);
      BlockWithin(lay.SizeDataPerElement(), c, |uppers|);
      BlockOfPrefix(memory, img.level0, lay.SizeDataPerElement(), c);
    }
    hide NodeInImage, NodeAt;
  }

  /** With M = 16 the block of an element of level 63161284 has 2^32 + 16 bytes, and 16 of them are saved: the
      element comes back on level 0. */
  lemma TallElementIsCut()
    ensures SavedSize(Layout(16, 32, 4), 63161284) == 16 && LevelFor(Layout(16, 32, 4), 16) == 0
    ensures !BlocksFit(Layout(16, 32, 4), [63161284])
  {
    Widths();
    assert [63161284][0] * Layout(16, 32, 4).SizeLinksPerElement() >= Range(4);
  }
}
