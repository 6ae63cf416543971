/** The container: sections, block frames, index and footer (internal/store/format.go), and what a
    reader makes of any file (internal/store/reader.go). */
module Layout {
  import opened Bytes
  import opened Canon
  import opened ScanEntry
  import opened Varint
  import opened EntryCodec
  import opened BlockCodec

  const MAGIC: Bytes := [79, 83, 70, 80, 0]
  const FOOTER_MAGIC: Bytes := [79, 83, 70, 80, 0, 69, 78, 68]

  const HEADER_SIZE: nat := 32
  const FIELDS_SIZE: nat := 72
  const FOOTER_SIZE: nat := 112
  const BLOCK_HEADER_SIZE: nat := 8
  const DEFAULT_BLOCK_SIZE: nat := 65536
  const MAX_BLOCK_SIZE: nat := 0x400_0000
  const MAX_META_SIZE: nat := 0x80_0000

  const MAX_I64: int := 0x7fff_ffff_ffff_ffff

  /** What the container takes from elsewhere: zstd, SHA-256 and the JSON decoder. */
  datatype Codecs = Codecs(
    compress: Bytes -> Bytes,
    decompress: Bytes -> Option<Bytes>,
    sha: Bytes -> Digest,
    parses: Bytes -> bool)

  ghost predicate Lossless(z: Codecs) {
    forall b :: z.decompress(z.compress(b)) == Some(b) && |z.compress(b)| <= 2 * |b| + 1024
  }

  /** Magic, version 1, SHA-256, zstd, then zeros. */
  function Header(): (h: Bytes)
    ensures |h| == HEADER_SIZE
    ensures h[0..5] == MAGIC && h[5] == 1 && h[6] == 1 && h[7] == 1
  {
    [79, 83, 70, 80, 0, 1, 1, 1, 0, 0, 0, 0, 0, 0, 0, 0, 0, 0, 0, 0, 0, 0, 0, 0, 0, 0, 0, 0, 0, 0, 0, 0]
  }

  // ---- what is written -------------------------------------------------------------------

  function Plain(block: seq<Entry>): Bytes {
    EncodeAll(block, [])
  }

  function Frame(z: Codecs, plain: Bytes): (f: Bytes)
    ensures |f| == BLOCK_HEADER_SIZE + |z.compress(plain)|
  {
    PutFixed(|plain| % 0x1_0000_0000, 4) + PutFixed(|z.compress(plain)| % 0x1_0000_0000, 4) + z.compress(plain)
  }

  function Data(z: Codecs, blocks: seq<seq<Entry>>): Bytes {
    if blocks == [] then []
    else Data(z, blocks[..|blocks| - 1]) + Frame(z, Plain(blocks[|blocks| - 1]))
  }

  datatype IndexEntry = IndexEntry(firstKey: Path, offset: int, size: int)

  function FirstKey(block: seq<Entry>): Path {
    if block == [] then [] else block[0].path
  }

  /** One record a block: its first key, where its frame starts and how long it is. */
  function IndexOf(z: Codecs, blocks: seq<seq<Entry>>, start: nat): (ix: seq<IndexEntry>)
    ensures |ix| == |blocks|
  {
    if blocks == [] then []
    else
      var n := |blocks| - 1;
      IndexOf(z, blocks[..n], start)
      + [IndexEntry(FirstKey(blocks[n]), start + |Data(z, blocks[..n])|, |Frame(z, Plain(blocks[n]))|)]
  }

  function U64(x: int): u64 {
    x % 0x1_0000_0000_0000_0000
  }

  function Record(ie: IndexEntry, rest: Bytes): Bytes {
    WithString(ie.firstKey, PutUvarint(U64(ie.offset)) + (PutUvarint(U64(ie.size)) + rest))
  }

  function Records(ix: seq<IndexEntry>): Bytes {
    if ix == [] then [] else Record(ix[0], Records(ix[1..]))
  }

  function IndexPlain(ix: seq<IndexEntry>): Bytes {
    PutUvarint(U64(|ix|)) + Records(ix)
  }

  function Fields(vs: seq<int>): (s: Bytes)
    ensures |s| == 8 * |vs|
  {
    if vs == [] then [] else PutFixed(U64(vs[0]), 8) + Fields(vs[1..])
  }

  function CountErrors(es: seq<Entry>): nat {
    if es == [] then 0 else CountErrors(es[..|es| - 1]) + (if es[|es| - 1].err != [] then 1 else 0)
  }

  function Flatten(blocks: seq<seq<Entry>>): seq<Entry> {
    if blocks == [] then [] else Flatten(blocks[..|blocks| - 1]) + blocks[|blocks| - 1]
  }

  /** The nine integers of the footer. */
  function FooterOf(z: Codecs, meta: Bytes, blocks: seq<seq<Entry>>): (s: Bytes)
    ensures |s| == FIELDS_SIZE
  {
    var dataStart := HEADER_SIZE + |meta|;
    var dataLength := |Data(z, blocks)|;
    Fields([HEADER_SIZE, |meta|, dataStart, dataLength, dataStart + dataLength,
            |Frame(z, IndexPlain(IndexOf(z, blocks, dataStart)))|,
            |Flatten(blocks)|, CountErrors(Flatten(blocks)), |blocks|])
  }

  /** Everything the digest covers. */
  function Body(z: Codecs, meta: Bytes, blocks: seq<seq<Entry>>): Bytes {
    Header() + meta + Data(z, blocks) + Frame(z, IndexPlain(IndexOf(z, blocks, HEADER_SIZE + |meta|)))
    + FooterOf(z, meta, blocks)
  }

  function File(z: Codecs, meta: Bytes, blocks: seq<seq<Entry>>): Bytes {
    var body := Body(z, meta, blocks);
    body + z.sha(body) + FOOTER_MAGIC
  }

  // ---- what is read, on any bytes --------------------------------------------------------

  /** int64 addition. */
  function Wrap(x: int): i64 {
    AsSigned(U64(x))
  }

  function ReadAt(file: Bytes, offset: int, length: int): (r: Option<Bytes>)
    ensures r.Some? ==> |r.value| == length
  {
    if offset < 0 || length < 0 || offset + length > |file| then None
    else Some(file[offset..offset + length])
  }

  function ReadBlock(z: Codecs, file: Bytes, offset: i64, size: i64): Option<Bytes> {
    if size < BLOCK_HEADER_SIZE || Wrap(offset + size) > |file| then None
    else
      match ReadAt(file, offset, size)
      case None => None
      case Some(raw) => Unframe(z, raw)
  }

  /** The frame passes the test on its place and still cannot be read there. */
  predicate Unreached(file: Bytes, offset: i64, size: i64) {
    size >= BLOCK_HEADER_SIZE && Wrap(offset + size) <= |file| && ReadAt(file, offset, size) == None
  }

  function Unframe(z: Codecs, raw: Bytes): Option<Bytes>
    requires |raw| >= BLOCK_HEADER_SIZE
  {
    if GetFixed(raw[..4]) > MAX_BLOCK_SIZE || GetFixed(raw[4..8]) != |raw| - BLOCK_HEADER_SIZE then None
    else
      match z.decompress(raw[8..])
      case None => None
      case Some(plain) => if |plain| != GetFixed(raw[..4]) then None else Some(plain)
  }

  /** The index loop: n records, each inside [dataStart, dataEnd). */
  function ReadRecords(s: Bytes, n: nat, dataStart: i64, dataEnd: i64): Option<seq<IndexEntry>>
    decreases n
  {
    if n == 0 then Some([])
    else
      match ReadRecord(s)
      case Bad(_) => None
      case Ok(ie, rest) =>
        if ie.offset < dataStart || ie.size <= 0 || Wrap(ie.offset + ie.size) > dataEnd then None
        else
          match ReadRecords(rest, n - 1, dataStart, dataEnd)
          case None => None
          case Some(ix) => Some([ie] + ix)
  }

  function ReadRecord(s: Bytes): Parsed<IndexEntry> {
    var (key, s1) :- ReadString(MAX_STRING_SIZE, s);
    var (offset, s2) :- ReadUvarint(s1);
    var (size, s3) :- ReadUvarint(s2);
    Ok(IndexEntry(key, AsSigned(offset), AsSigned(size)), s3)
  }

  function ReadIndex(z: Codecs, file: Bytes, offset: i64, length: i64, dataStart: i64, dataEnd: i64)
    : Option<seq<IndexEntry>>
  {
    if length == 0 then Some([])
    else
      match ReadBlock(z, file, offset, length)
      case None => None
      case Some(raw) =>
        match ReadUvarint(raw)
        case Bad(_) => None
        case Ok(count, rest) => if count > |raw| / 3 then None else ReadRecords(rest, count, dataStart, dataEnd)
  }

  datatype Image = Image(file: Bytes, meta: Bytes, index: seq<IndexEntry>, digest: Digest,
                         entries: i64, errors: i64, blocks: i64)

  datatype OpenError = Corrupt | BadMagic | Unsupported | ReadFailed

  datatype Opened = Open(image: Image) | Refused(why: OpenError)

  function Field(footer: Bytes, i: nat): i64
    requires |footer| == FOOTER_SIZE && i < 9
  {
    FixedBound(footer[8 * i..8 * i + 8]);
    PowersOf256();
    AsSigned(GetFixed(footer[8 * i..8 * i + 8]))
  }

  predicate SectionInside(offset: i64, length: i64, limit: int) {
    !(offset < HEADER_SIZE || length < 0 || offset > limit || Wrap(offset + length) > limit)
  }

  function OpenFile(z: Codecs, file: Bytes): Opened {
    if |file| < HEADER_SIZE + FOOTER_SIZE then Refused(Corrupt)
    else if file[..5] != MAGIC then Refused(BadMagic)
    else if file[5] != 1 || file[6] != 1 || file[7] != 1 then Refused(Unsupported)
    else OpenFooter(z, file, file[|file| - FOOTER_SIZE..])
  }

  function ImageOf(file: Bytes, meta: Bytes, ix: seq<IndexEntry>, footer: Bytes): Image
    requires |footer| == FOOTER_SIZE
  {
    Image(file, meta, ix, footer[72..104], Field(footer, 6), Field(footer, 7), Field(footer, 8))
  }

  function OpenFooter(z: Codecs, file: Bytes, footer: Bytes): Opened
    requires |footer| == FOOTER_SIZE <= |file|
  {
    var limit := |file| - FOOTER_SIZE;
    if footer[104..] != FOOTER_MAGIC then Refused(Corrupt)
    else if !SectionInside(Field(footer, 0), Field(footer, 1), limit)
         || !SectionInside(Field(footer, 2), Field(footer, 3), limit)
         || !SectionInside(Field(footer, 4), Field(footer, 5), limit) then Refused(Corrupt)
    else if Field(footer, 6) < 0 || Field(footer, 7) < 0 || Field(footer, 8) < 0 then Refused(Corrupt)
    else if Field(footer, 1) > MAX_META_SIZE then Refused(Corrupt)
    else
      match ReadAt(file, Field(footer, 0), Field(footer, 1))
      case None => Refused(ReadFailed)
      case Some(meta) =>
        if !z.parses(meta) then Refused(Corrupt)
        else
          match ReadIndex(z, file, Field(footer, 4), Field(footer, 5), Field(footer, 2),
                          Wrap(Field(footer, 2) + Field(footer, 3)))
          case None => Refused(if Unreached(file, Field(footer, 4), Field(footer, 5)) then ReadFailed else Corrupt)
          case Some(ix) =>
            if |ix| != Field(footer, 8) then Refused(Corrupt)
            else Open(ImageOf(file, meta, ix, footer))
  }

  /** Verify: the digest over everything before it. */
  predicate Verifies(z: Codecs, img: Image) {
    |img.file| >= 40 && z.sha(img.file[..|img.file| - 40]) == img.digest
  }

  // ---- what it takes to open -------------------------------------------------------------

  /** A block is read exactly when its frame lies within the file, declares its own length and a plain length within
      the limit, and decompresses to that many bytes. */
  lemma ReadBlockMeans(z: Codecs, file: Bytes, offset: i64, size: i64, plain: Bytes)
    requires 0 <= offset && 0 <= size && offset + size <= MAX_I64
    ensures ReadBlock(z, file, offset, size) == Some(plain)
       <==> (&& 8 <= size && offset + size <= |file|
             && GetFixed(file[offset..offset + 4]) == |plain| <= 0x400_0000
             && GetFixed(file[offset + 4..offset + 8]) == size - 8
             && z.decompress(file[offset + 8..offset + size]) == Some(plain))
  {
    hide GetFixed;
    if 8 <= size && offset + size <= |file| { FrameSlices(file, offset, size); }
  }

  lemma FrameSlices(file: Bytes, offset: nat, size: nat)
    requires 8 <= size && offset + size <= |file|
    ensures var raw := file[offset..offset + size];
            && raw[..4] == file[offset..offset + 4] && raw[4..8] == file[offset + 4..offset + 8]
            && raw[8..] == file[offset + 8..offset + size]
  {
    var raw := file[offset..offset + size];
    assert forall k | 0 <= k < 4 :: raw[4..8][k] == raw[4 + k] == file[offset + (4 + k)];
    assert |raw[4..8]| == 4 && |file[offset + 4..offset + 8]| == 4;
  }

  /** The i-th integer of the last 112 bytes. */
  function Trailer(file: Bytes, i: nat): i64
    requires |file| >= FOOTER_SIZE && i < 9
  {
    Field(file[|file| - FOOTER_SIZE..], i)
  }

  /** A section between the header and the footer, its end computed in 64 bits. */
  predicate Lies(file: Bytes, offset: i64, length: i64) {
    32 <= offset <= |file| - 112 && 0 <= length && Wrap(offset + length) <= |file| - 112
  }

  /** Whatever the bytes, a file is opened exactly when it passes each of these tests, and the image is what it says. */
  lemma OpensExactly(z: Codecs, file: Bytes)
    ensures OpenFile(z, file).Open?
       <==> (&& |file| >= 144
             && file[..8] == [79, 83, 70, 80, 0, 1, 1, 1] && file[|file| - 8..] == [79, 83, 70, 80, 0, 69, 78, 68]
             && var metaOffset, metaLength := Trailer(file, 0), Trailer(file, 1);
             var dataOffset, dataLength := Trailer(file, 2), Trailer(file, 3);
             var indexOffset, indexLength := Trailer(file, 4), Trailer(file, 5);
             && Lies(file, metaOffset, metaLength) && Lies(file, dataOffset, dataLength)
             && Lies(file, indexOffset, indexLength)
             && Trailer(file, 6) >= 0 && Trailer(file, 7) >= 0 && Trailer(file, 8) >= 0
             && metaLength <= 0x80_0000 && metaOffset + metaLength <= |file|
             && z.parses(file[metaOffset..metaOffset + metaLength])
             && var ix := ReadIndex(z, file, indexOffset, indexLength, dataOffset, Wrap(dataOffset + dataLength));
             ix.Some? && |ix.value| == Trailer(file, 8))
    ensures OpenFile(z, file).Open? ==>
              var img := OpenFile(z, file).image;
              && |file| >= 144 && Lies(file, Trailer(file, 0), Trailer(file, 1))
              && img.file == file && img.digest == file[|file| - 40..|file| - 8]
              && Trailer(file, 0) + Trailer(file, 1) <= |file|
              && img.meta == file[Trailer(file, 0)..Trailer(file, 0) + Trailer(file, 1)]
              && img.entries == Trailer(file, 6) && img.errors == Trailer(file, 7) && img.blocks == Trailer(file, 8)
              && Some(img.index) == ReadIndex(z, file, Trailer(file, 4), Trailer(file, 5), Trailer(file, 2),
                                              Wrap(Trailer(file, 2) + Trailer(file, 3)))
              && |img.index| == img.blocks
  {
    hide Field, ReadIndex, Wrap;
    if |file| >= 144 { EndSlices(file); }
  }

  /** Which refusal: a file too short is corrupt, one without the magic is not a fingerprint, one of another version or
      with other algorithms is not supported; anything else wrong makes it corrupt, unless it could not be read. */
  lemma RefusalMeans(z: Codecs, file: Bytes)
    ensures OpenFile(z, file) == Refused(BadMagic) <==> |file| >= 144 && file[..5] != [79, 83, 70, 80, 0]
    ensures OpenFile(z, file) == Refused(Unsupported)
       <==> |file| >= 144 && file[..5] == [79, 83, 70, 80, 0] && file[5..8] != [1, 1, 1]
    ensures |file| < 144 ==> OpenFile(z, file) == Refused(Corrupt)
    ensures OpenFile(z, file) == Refused(ReadFailed) ==>
              && |file| >= 144
              && var offset, length := Trailer(file, 0), Trailer(file, 1);
              var ixOffset, ixLength := Trailer(file, 4), Trailer(file, 5);
              offset + length > |file| || ixOffset + ixLength > |file|
  {
    hide Field, ReadIndex, Wrap;
    if |file| >= 144 {
      EndSlices(file);
      assert file[5..8] == [file[5], file[6], file[7]];
    }
  }

  lemma DigestRecorded(z: Codecs, file: Bytes)
    requires OpenFile(z, file).Open?
    ensures |file| >= 144
    ensures OpenFile(z, file).image.file == file && OpenFile(z, file).image.digest == file[|file| - 40..|file| - 8]
  {
    hide OpenFile, Lies, Trailer, ReadIndex, Wrap;
    OpensExactly(z, file);
  }

  /** What an opened file's index says of each block leads somewhere. */
  lemma OpenedIndexed(z: Codecs, file: Bytes)
    requires OpenFile(z, file).Open?
    ensures Indexed(OpenFile(z, file).image.index)
  {
    hide OpenFile, Lies, Trailer, Wrap, ReadBlock, ReadUvarint, ReadRecords, Indexed;
    OpensExactly(z, file);
    IndexReadIsIndexed(z, file, Trailer(file, 4), Trailer(file, 5), Trailer(file, 2),
                       Wrap(Trailer(file, 2) + Trailer(file, 3)));
  }

  lemma IndexReadIsIndexed(z: Codecs, file: Bytes, offset: i64, length: i64, dataStart: i64, dataEnd: i64)
    ensures var r := ReadIndex(z, file, offset, length, dataStart, dataEnd); r.Some? ==> Indexed(r.value)
  {
    hide ReadBlock, ReadUvarint, ReadRecords;
    var raw := ReadBlock(z, file, offset, length);
    if length != 0 && raw.Some? && ReadUvarint(raw.value).Ok? {
      var n := ReadUvarint(raw.value);
      RecordsIndexed(n.rest, n.value, dataStart, dataEnd);
    }
  }

  lemma EndSlices(file: Bytes)
    requires |file| >= 144
    ensures var footer := file[|file| - FOOTER_SIZE..];
            footer[104..] == file[|file| - 8..] && footer[72..104] == file[|file| - 40..|file| - 8]
    ensures file[..8] == [79, 83, 70, 80, 0, 1, 1, 1] <==>
              file[..5] == [79, 83, 70, 80, 0] && file[5] == 1 && file[6] == 1 && file[7] == 1
  {
    assert file[..8] == file[..5] + [file[5], file[6], file[7]];
    assert [79, 83, 70, 80, 0, 1, 1, 1] == [79, 83, 70, 80, 0] + [1, 1, 1];
    assert |file[..5]| == 5;
  }

  /** Each index record of an opened file lies in its data section, with a key within the limit. */
  lemma {:induction false} RecordsInside(s: Bytes, n: nat, dataStart: i64, dataEnd: i64)
    ensures var r := ReadRecords(s, n, dataStart, dataEnd);
            r.Some? ==>
              |r.value| == n
              && forall ie | ie in r.value :: && dataStart <= ie.offset && 0 < ie.size
                                              && Wrap(ie.offset + ie.size) <= dataEnd && |ie.firstKey| <= 65536
    decreases n
  {
    hide ReadString, ReadUvarint, Wrap;
    if n > 0 && ReadRecord(s).Ok? {
      RecordsInside(ReadRecord(s).rest, n - 1, dataStart, dataEnd);
    }
  }

  /** Of an opened file the digest verifies exactly when the recorded one is that of every byte before it. */
  lemma VerifiesExactly(z: Codecs, file: Bytes)
    requires OpenFile(z, file).Open?
    ensures |file| >= 144
    ensures Verifies(z, OpenFile(z, file).image) <==> z.sha(file[..|file| - 40]) == file[|file| - 40..|file| - 8]
  {
    DigestRecorded(z, file);
  }

  datatype End = AtEof | Undecodable(why: Fault) | Unreadable

  /** What a cursor returns before its first failure or EOF. */
  datatype Stream = Stream(entries: seq<Entry>, end: End)

  function After(r: Run, next: Stream): Stream {
    if r.fault.Some? then Stream(r.entries, Undecodable(r.fault.value))
    else Stream(r.entries + next.entries, next.end)
  }

  ghost predicate Indexed(ix: seq<IndexEntry>) {
    forall i | 0 <= i < |ix| :: -MAX_I64 - 1 <= ix[i].offset <= MAX_I64 && 0 < ix[i].size <= MAX_I64
  }

  /** Reading from block i on. */
  ghost function FromBlock(z: Codecs, img: Image, i: nat): Stream
    requires Indexed(img.index)
    decreases |img.index| - i
  {
    if i >= |img.index| then Stream([], AtEof)
    else
      match ReadBlock(z, img.file, img.index[i].offset, img.index[i].size)
      case None => Stream([], Unreadable)
      case Some(buf) => After(DecodeAll(buf, []), FromBlock(z, img, i + 1))
  }

  lemma {:induction false} RecordsIndexed(s: Bytes, n: nat, dataStart: i64, dataEnd: i64)
    ensures var r := ReadRecords(s, n, dataStart, dataEnd);
            r.Some? ==> |r.value| == n && Indexed(r.value)
    decreases n
  {
    hide ReadString, ReadUvarint;
    if n > 0 && ReadRecord(s).Ok? {
      RecordsIndexed(ReadRecord(s).rest, n - 1, dataStart, dataEnd);
    }
  }
}
