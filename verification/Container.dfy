/** A file the writer produced opens, and reads back as exactly the entries that went in. */
module Container {
  import opened Bytes
  import opened Canon
  import opened ScanEntry
  import opened Varint
  import opened EntryCodec
  import opened BlockCodec
  import opened Layout

  // ---- frames ----------------------------------------------------------------------------

  /** A frame gives back what was framed, up to the limit. */
  lemma UnframeFrame(z: Codecs, plain: Bytes)
    requires Lossless(z)
    ensures Unframe(z, Frame(z, plain)) == if |plain| <= MAX_BLOCK_SIZE then Some(plain) else None
  {
    LosslessAt(z, plain);
    hide Lossless;
    FrameParts(z, plain);
    hide Frame, GetFixed;
  }

  lemma FrameParts(z: Codecs, plain: Bytes)
    ensures var f := Frame(z, plain);
            && GetFixed(f[..4]) == |plain| % 0x1_0000_0000
            && GetFixed(f[4..8]) == |z.compress(plain)| % 0x1_0000_0000
            && f[8..] == z.compress(plain)
  {
    hide PutFixed, GetFixed;
    var n, c := |plain| % 0x1_0000_0000, |z.compress(plain)| % 0x1_0000_0000;
    Fixed4(n);
    Fixed4(c);
    Cut(PutFixed(n, 4), PutFixed(c, 4), z.compress(plain));
  }

  lemma Cut(a: Bytes, b: Bytes, c: Bytes)
    requires |a| == 4 && |b| == 4
    ensures (a + b + c)[..4] == a && (a + b + c)[4..8] == b && (a + b + c)[8..] == c
  {
  }

  lemma Fixed4(x: nat)
    requires x < 0x1_0000_0000
    ensures GetFixed(PutFixed(x, 4)) == x
  {
    hide PutFixed, GetFixed;
    PowersOf256();
    FixedRoundTrip(x, 4);
  }

  lemma Fixed8(x: nat)
    requires x <= MAX_I64
    ensures GetFixed(PutFixed(x, 8)) == x
  {
    hide PutFixed, GetFixed;
    PowersOf256();
    FixedRoundTrip(x, 8);
  }

  lemma LosslessAt(z: Codecs, b: Bytes)
    requires Lossless(z)
    ensures z.decompress(z.compress(b)) == Some(b) && |z.compress(b)| <= 2 * |b| + 1024
  {
  }

  lemma SectionRead(file: Bytes, pre: Bytes, section: Bytes, rest: Bytes)
    requires file == pre + section + rest
    ensures ReadAt(file, |pre|, |section|) == Some(section)
  {
    assert file[|pre|..|pre| + |section|] == section;
  }

  lemma ReadFrame(z: Codecs, file: Bytes, pre: Bytes, plain: Bytes, rest: Bytes)
    requires Lossless(z)
    requires file == pre + Frame(z, plain) + rest && |file| <= MAX_I64
    ensures ReadBlock(z, file, |pre|, |Frame(z, plain)|) == if |plain| <= MAX_BLOCK_SIZE then Some(plain) else None
  {
    hide Frame, Unframe, Lossless;
    SectionRead(file, pre, Frame(z, plain), rest);
    UnframeFrame(z, plain);
    hide ReadAt;
  }

  // ---- blocks tile the data section ------------------------------------------------------

  lemma {:induction false} DataSplit(z: Codecs, blocks: seq<seq<Entry>>, i: nat) returns (rest: Bytes)
    requires i < |blocks|
    ensures Data(z, blocks) == Data(z, blocks[..i]) + Frame(z, Plain(blocks[i])) + rest
    decreases |blocks|
  {
    hide Frame, Plain;
    var n := |blocks| - 1;
    rest := [];
    if i < n {
      var r := DataSplit(z, blocks[..n], i);
      assert blocks[..n][..i] == blocks[..i];
      rest := r + Frame(z, Plain(blocks[n]));
      Assoc(Data(z, blocks[..i]) + Frame(z, Plain(blocks[i])), r, Frame(z, Plain(blocks[n])));
    }
  }

  lemma {:induction false} DataLength(z: Codecs, blocks: seq<seq<Entry>>)
    ensures BLOCK_HEADER_SIZE * |blocks| <= |Data(z, blocks)|
  {
    hide Plain;
    if blocks != [] { DataLength(z, blocks[..|blocks| - 1]); }
  }

  /** The i-th record: each block starts where the one before it ends, the first at the start of the
      data section, so the blocks tile the section without gap or overlap. */
  lemma {:induction false} IndexAt(z: Codecs, blocks: seq<seq<Entry>>, start: nat, i: nat)
    requires i < |blocks|
    ensures var ix := IndexOf(z, blocks, start);
            && ix[i] == IndexEntry(FirstKey(blocks[i]), start + |Data(z, blocks[..i])|, |Frame(z, Plain(blocks[i]))|)
            && ix[i].offset == (if i == 0 then start else ix[i - 1].offset + ix[i - 1].size)
            && ix[|ix| - 1].offset + ix[|ix| - 1].size == start + |Data(z, blocks)|
    decreases |blocks|
  {
    hide Plain, FirstKey;
    var n := |blocks| - 1;
    assert blocks[..i + 1][..i] == blocks[..i];
    if n > 0 { IndexAt(z, blocks[..n], start, if i < n then i else n - 1); }
    if i < n { assert blocks[..n][..i] == blocks[..i]; }
  }

  // ---- index -----------------------------------------------------------------------------

  predicate Placed(ie: IndexEntry, dataStart: int, dataEnd: int) {
    && 0 <= dataStart <= ie.offset && 0 < ie.size && ie.offset + ie.size <= dataEnd <= MAX_I64
    && |ie.firstKey| <= MAX_I64
  }

  predicate KeyFits(ie: IndexEntry) {
    |ie.firstKey| <= MAX_STRING_SIZE
  }

  ghost predicate KeysFit(ix: seq<IndexEntry>) {
    forall ie | ie in ix :: KeyFits(ie)
  }

  lemma ReadOneRecord(ie: IndexEntry, dataStart: int, dataEnd: int, rest: Bytes)
    requires Placed(ie, dataStart, dataEnd)
    ensures ReadRecord(Record(ie, rest)) == if KeyFits(ie) then Ok(ie, rest) else Bad(TooLong)
    ensures |Record(ie, rest)| >= 3 + |rest|
  {
    hide ReadUvarint, PutUvarint, ReadString;
    var s2 := PutUvarint(U64(ie.size)) + rest;
    ReadWithString(ie.firstKey, PutUvarint(U64(ie.offset)) + s2);
    ReadPut(U64(ie.offset), s2);
    ReadPut(U64(ie.size), rest);
  }

  lemma {:induction false} ReadAllRecords(ix: seq<IndexEntry>, dataStart: int, dataEnd: int)
    requires forall ie | ie in ix :: Placed(ie, dataStart, dataEnd)
    requires 0 <= dataStart <= dataEnd <= MAX_I64
    ensures ReadRecords(Records(ix), |ix|, dataStart, dataEnd) == if KeysFit(ix) then Some(ix) else None
    ensures 3 * |ix| <= |Records(ix)|
  {
    hide Record, ReadRecord, KeyFits;
    if ix != [] {
      assert KeysFit(ix) <==> KeyFits(ix[0]) && KeysFit(ix[1..]) by { assert ix == [ix[0]] + ix[1..]; }
      ReadOneRecord(ix[0], dataStart, dataEnd, Records(ix[1..]));
      ReadAllRecords(ix[1..], dataStart, dataEnd);
      assert Wrap(ix[0].offset + ix[0].size) == ix[0].offset + ix[0].size;
      assert ix == [ix[0]] + ix[1..];
    }
  }

  lemma ReadWrittenIndex(z: Codecs, file: Bytes, pre: Bytes, ix: seq<IndexEntry>, rest: Bytes,
                         dataStart: int, dataEnd: int)
    requires Lossless(z) && |IndexPlain(ix)| <= MAX_BLOCK_SIZE && |ix| <= MAX_I64
    requires file == pre + Frame(z, IndexPlain(ix)) + rest && |file| <= MAX_I64
    requires forall ie | ie in ix :: Placed(ie, dataStart, dataEnd)
    requires 0 <= dataStart <= dataEnd <= MAX_I64
    ensures ReadIndex(z, file, |pre|, |Frame(z, IndexPlain(ix))|, dataStart, dataEnd)
         == if KeysFit(ix) then Some(ix) else None
  {
    hide ReadUvarint, PutUvarint, ReadRecords, Records, ReadBlock, Frame, Lossless, KeysFit;
    ReadFrame(z, file, pre, IndexPlain(ix), rest);
    ReadPut(U64(|ix|), Records(ix));
    ReadAllRecords(ix, dataStart, dataEnd);
  }

  // ---- footer ----------------------------------------------------------------------------

  lemma {:induction false} FieldSlice(vs: seq<int>, i: nat)
    requires i < |vs|
    ensures Fields(vs)[8 * i..8 * i + 8] == PutFixed(U64(vs[i]), 8)
  {
    hide PutFixed, U64;
    if i > 0 {
      FieldSlice(vs[1..], i - 1);
      assert Fields(vs)[8 * i..8 * i + 8] == Fields(vs[1..])[8 * (i - 1)..8 * (i - 1) + 8];
    }
  }

  lemma FieldOfFooter(footer: Bytes, vs: seq<int>, rest: Bytes, i: nat)
    requires |footer| == FOOTER_SIZE && |vs| == 9 && footer == Fields(vs) + rest
    requires i < 9 && 0 <= vs[i] <= MAX_I64
    ensures Field(footer, i) == vs[i]
  {
    hide PutFixed, GetFixed, Fields;
    assert footer[8 * i..8 * i + 8] == Fields(vs)[8 * i..8 * i + 8];
    FieldSlice(vs, i);
    Fixed8(vs[i]);
  }

  // ---- the whole file --------------------------------------------------------------------

  /** A block the decoder takes back: strictly increasing, every string within the limit. */
  ghost predicate Readable(block: seq<Entry>) {
    && block != [] && Chain(block, []) && AllAddressable(block, [])
    && FitCount(block, []) == |block|
    && |Plain(block)| <= MAX_BLOCK_SIZE
  }

  /** What the format needs of the metadata, the blocks and the total size. */
  ghost predicate Sized(z: Codecs, meta: Bytes, blocks: seq<seq<Entry>>) {
    && |meta| <= MAX_META_SIZE && z.parses(meta)
    && |IndexPlain(IndexOf(z, blocks, HEADER_SIZE + |meta|))| <= MAX_BLOCK_SIZE
    && |File(z, meta, blocks)| <= MAX_I64
  }

  function WrittenImage(z: Codecs, meta: Bytes, blocks: seq<seq<Entry>>): Image
    requires |Flatten(blocks)| <= MAX_I64 && CountErrors(Flatten(blocks)) <= MAX_I64 && |blocks| <= MAX_I64
  {
    Image(File(z, meta, blocks), meta, IndexOf(z, blocks, HEADER_SIZE + |meta|), z.sha(Body(z, meta, blocks)),
          |Flatten(blocks)|, CountErrors(Flatten(blocks)), |blocks|)
  }

  lemma {:induction false} CountErrorsBound(es: seq<Entry>)
    ensures CountErrors(es) <= |es|
  {
    if es != [] { CountErrorsBound(es[..|es| - 1]); }
  }

  lemma {:induction false} EncodedLength(es: seq<Entry>, prev: Path)
    ensures |es| <= |EncodeAll(es, prev)|
  {
    if es != [] {
      EncodeNotEmpty(es[0], prev);
      hide Encode;
      EncodedLength(es[1..], es[0].path);
    }
  }

  /** Every block starts with a path the index may name. */
  ghost predicate FirstKeysFit(blocks: seq<seq<Entry>>) {
    forall b | b in blocks :: |FirstKey(b)| <= MAX_STRING_SIZE
  }

  /** Each record points into the data section. */
  lemma IndexPlaced(z: Codecs, blocks: seq<seq<Entry>>, start: nat)
    requires forall b | b in blocks :: |FirstKey(b)| <= MAX_I64
    requires start + |Data(z, blocks)| <= MAX_I64
    ensures forall ie | ie in IndexOf(z, blocks, start) :: Placed(ie, start, start + |Data(z, blocks)|)
    ensures KeysFit(IndexOf(z, blocks, start)) <==> FirstKeysFit(blocks)
  {
    hide Data, Plain, FirstKey;
    var ix := IndexOf(z, blocks, start);
    forall i | 0 <= i < |ix|
      ensures Placed(ix[i], start, start + |Data(z, blocks)|) && ix[i].firstKey == FirstKey(blocks[i])
    {
      IndexAt(z, blocks, start, i);
      var _ := DataSplit(z, blocks, i);
      assert blocks[i] in blocks;
    }
    if KeysFit(ix) {
      forall b | b in blocks ensures |FirstKey(b)| <= MAX_STRING_SIZE {
        var i :| 0 <= i < |blocks| && blocks[i] == b;
        assert KeyFits(ix[i]);
      }
    }
    if FirstKeysFit(blocks) {
      forall i | 0 <= i < |ix| ensures KeyFits(ix[i]) {
        assert blocks[i] in blocks;
      }
    }
  }

  lemma FirstKeyFits(block: seq<Entry>)
    requires block != [] && FitCount(block, []) == |block|
    ensures |FirstKey(block)| <= MAX_STRING_SIZE
  {
    assert Fits(block[0], []);
  }

  /** Opening what was written finds every section where it was put, and the counts in the footer are
      exact; only a first path over the limit makes the reader refuse the index, and the file with it. */
  lemma OpenWritten(z: Codecs, meta: Bytes, blocks: seq<seq<Entry>>)
    requires Lossless(z) && Sized(z, meta, blocks)
    requires forall b | b in blocks :: |FirstKey(b)| <= MAX_I64
    requires |Flatten(blocks)| <= MAX_I64
    ensures CountErrors(Flatten(blocks)) <= MAX_I64 && |blocks| <= MAX_I64
    ensures OpenFile(z, File(z, meta, blocks))
         == if FirstKeysFit(blocks) then Open(WrittenImage(z, meta, blocks)) else Refused(Corrupt)
    ensures Verifies(z, WrittenImage(z, meta, blocks))
  {
    hide Header, Data, Frame, Fields, FooterOf, Flatten, CountErrors, IndexOf, IndexPlain, Placed, Field, ReadIndex,
        ReadAt, FirstKey, Lossless, SectionInside, KeysFit, FirstKeysFit;
    CountErrorsBound(Flatten(blocks));
    DataLength(z, blocks);
    var dataStart, data := HEADER_SIZE + |meta|, Data(z, blocks);
    var ix := IndexOf(z, blocks, dataStart);
    var index := Frame(z, IndexPlain(ix));
    var file, body, footer := File(z, meta, blocks), Body(z, meta, blocks), FooterOf(z, meta, blocks);
    var sum := z.sha(body);
    FileShape(Header(), meta, data, index, footer, sum, file);
    hide Body, File;
    IndexPlaced(z, blocks, dataStart);
    FooterFields(z, meta, blocks, footer + (sum + FOOTER_MAGIC), sum + FOOTER_MAGIC);
    SectionRead(file, Header(), meta, data + index + footer + sum + FOOTER_MAGIC);
    ReadWrittenIndex(z, file, Header() + meta + data, ix, footer + sum + FOOTER_MAGIC, dataStart, dataStart + |data|);
    OpenSections(z, file, meta, ix, sum, |data|, |index|, |Flatten(blocks)|, CountErrors(Flatten(blocks)));
    FirstBytes(file, Header());
  }

  lemma FirstBytes(file: Bytes, header: Bytes)
    requires |file| >= 8 && |header| >= 8 && file[0..8] == header[0..8]
    ensures file[..5] == header[0..5] && file[5] == header[5] && file[6] == header[6] && file[7] == header[7]
  {
    assert file[..5] == file[0..8][0..5] && header[0..5] == header[0..8][0..5];
    assert file[5] == file[0..8][5] && file[6] == file[0..8][6] && file[7] == file[0..8][7];
    assert header[5] == header[0..8][5] && header[6] == header[0..8][6] && header[7] == header[0..8][7];
  }

  /** With every section where the footer says, each of the reader's checks passes but that of the
      first keys, which passes when they fit. */
  lemma OpenSections(z: Codecs, file: Bytes, meta: Bytes, ix: seq<IndexEntry>, sum: Digest,
                     dataLength: nat, indexLength: nat, entries: nat, errors: nat)
    requires |file| == HEADER_SIZE + |meta| + dataLength + indexLength + FOOTER_SIZE <= MAX_I64
    requires |meta| <= MAX_META_SIZE && z.parses(meta)
    requires entries <= MAX_I64 && errors <= MAX_I64 && |ix| <= MAX_I64
    requires var dataStart, footer := HEADER_SIZE + |meta|, file[|file| - FOOTER_SIZE..];
             && Field(footer, 0) == HEADER_SIZE && Field(footer, 1) == |meta|
             && Field(footer, 2) == dataStart && Field(footer, 3) == dataLength
             && Field(footer, 4) == dataStart + dataLength && Field(footer, 5) == indexLength
             && Field(footer, 6) == entries && Field(footer, 7) == errors && Field(footer, 8) == |ix|
             && footer[72..104] == sum && footer[104..] == FOOTER_MAGIC
             && ReadIndex(z, file, dataStart + dataLength, indexLength, dataStart, dataStart + dataLength)
                == (if KeysFit(ix) then Some(ix) else None)
    requires ReadAt(file, HEADER_SIZE, |meta|) == Some(meta)
    ensures OpenFooter(z, file, file[|file| - FOOTER_SIZE..])
         == if KeysFit(ix) then Open(Image(file, meta, ix, sum, entries, errors, |ix|)) else Refused(Corrupt)
  {
    hide Field, ReadIndex, ReadAt, KeysFit, Unreached, SectionInside, Wrap;
    var dataStart := HEADER_SIZE + |meta|;
    WithinFile(file, HEADER_SIZE, |meta|);
    WithinFile(file, dataStart, dataLength);
    WithinFile(file, dataStart + dataLength, indexLength);
  }

  lemma WithinFile(file: Bytes, offset: nat, size: nat)
    requires HEADER_SIZE <= offset && offset + size + FOOTER_SIZE <= |file| <= MAX_I64
    ensures SectionInside(offset, size, |file| - FOOTER_SIZE)
    ensures !Unreached(file, offset, size) && Wrap(offset + size) == offset + size
  {
  }

  /** Where each section of a written file lies. */
  lemma FileShape(header: Bytes, meta: Bytes, data: Bytes, index: Bytes, fields: Bytes, sum: Digest, file: Bytes)
    requires |header| == HEADER_SIZE && |fields| == FIELDS_SIZE
    requires file == header + meta + data + index + fields + sum + FOOTER_MAGIC
    ensures |file| == HEADER_SIZE + |meta| + |data| + |index| + FOOTER_SIZE
    ensures file[0..8] == header[0..8]
    ensures file == header + meta + (data + index + fields + sum + FOOTER_MAGIC)
    ensures file == (header + meta + data) + index + (fields + sum + FOOTER_MAGIC)
    ensures file[|file| - FOOTER_SIZE..] == fields + (sum + FOOTER_MAGIC)
    ensures (fields + (sum + FOOTER_MAGIC))[72..104] == sum && (fields + (sum + FOOTER_MAGIC))[104..] == FOOTER_MAGIC
    ensures file[..|file| - 40] == header + meta + data + index + fields
  {
  }

  lemma FooterFields(z: Codecs, meta: Bytes, blocks: seq<seq<Entry>>, footer: Bytes, rest: Bytes)
    requires |footer| == FOOTER_SIZE && footer == FooterOf(z, meta, blocks) + rest
    requires HEADER_SIZE + |meta| + |Data(z, blocks)| <= MAX_I64 && |blocks| <= MAX_I64
    requires |Frame(z, IndexPlain(IndexOf(z, blocks, HEADER_SIZE + |meta|)))| <= MAX_I64
    requires |Flatten(blocks)| <= MAX_I64 && CountErrors(Flatten(blocks)) <= MAX_I64
    ensures var dataStart := HEADER_SIZE + |meta|;
            && Field(footer, 0) == HEADER_SIZE && Field(footer, 1) == |meta|
            && Field(footer, 2) == dataStart && Field(footer, 3) == |Data(z, blocks)|
            && Field(footer, 4) == dataStart + |Data(z, blocks)|
            && Field(footer, 5) == |Frame(z, IndexPlain(IndexOf(z, blocks, dataStart)))|
            && Field(footer, 6) == |Flatten(blocks)| && Field(footer, 7) == CountErrors(Flatten(blocks))
            && Field(footer, 8) == |blocks|
  {
    hide Field, Fields, Data, Frame, Flatten, CountErrors, IndexOf, IndexPlain;
    var dataStart, dataLength := HEADER_SIZE + |meta|, |Data(z, blocks)|;
    NineFields(footer, HEADER_SIZE, |meta|, dataStart, dataLength, dataStart + dataLength,
               |Frame(z, IndexPlain(IndexOf(z, blocks, dataStart)))|,
               |Flatten(blocks)|, CountErrors(Flatten(blocks)), |blocks|, rest);
  }

  lemma NineFields(footer: Bytes, a: nat, b: nat, c: nat, d: nat, e: nat, f: nat, g: nat, h: nat, k: nat, rest: Bytes)
    requires |footer| == FOOTER_SIZE && footer == Fields([a, b, c, d, e, f, g, h, k]) + rest
    requires a <= MAX_I64 && b <= MAX_I64 && c <= MAX_I64 && d <= MAX_I64 && e <= MAX_I64
    requires f <= MAX_I64 && g <= MAX_I64 && h <= MAX_I64 && k <= MAX_I64
    ensures Field(footer, 0) == a && Field(footer, 1) == b && Field(footer, 2) == c
    ensures Field(footer, 3) == d && Field(footer, 4) == e && Field(footer, 5) == f
    ensures Field(footer, 6) == g && Field(footer, 7) == h && Field(footer, 8) == k
  {
    hide Field, Fields;
    var vs := [a, b, c, d, e, f, g, h, k];
    FieldOfFooter(footer, vs, rest, 0);
    FieldOfFooter(footer, vs, rest, 1);
    FieldOfFooter(footer, vs, rest, 2);
    FieldOfFooter(footer, vs, rest, 3);
    FieldOfFooter(footer, vs, rest, 4);
    FieldOfFooter(footer, vs, rest, 5);
    FieldOfFooter(footer, vs, rest, 6);
    FieldOfFooter(footer, vs, rest, 7);
    FieldOfFooter(footer, vs, rest, 8);
  }

  // ---- reading it through ----------------------------------------------------------------

  lemma WrittenIndexed(z: Codecs, meta: Bytes, blocks: seq<seq<Entry>>)
    requires |File(z, meta, blocks)| <= MAX_I64
    ensures Indexed(IndexOf(z, blocks, HEADER_SIZE + |meta|))
  {
    hide Plain, Fields, Frame;
    var ix := IndexOf(z, blocks, HEADER_SIZE + |meta|);
    forall i | 0 <= i < |ix| ensures 0 <= ix[i].offset <= MAX_I64 && 0 < ix[i].size <= MAX_I64 {
      IndexAt(z, blocks, HEADER_SIZE + |meta|, i);
      var _ := DataSplit(z, blocks, i);
    }
  }

  lemma ReadWrittenBlock(z: Codecs, meta: Bytes, blocks: seq<seq<Entry>>, i: nat)
    requires Lossless(z) && |File(z, meta, blocks)| <= MAX_I64 && i < |blocks|
    ensures var ie := IndexOf(z, blocks, HEADER_SIZE + |meta|)[i];
            && 0 <= ie.offset <= MAX_I64 && 0 < ie.size <= MAX_I64
            && ReadBlock(z, File(z, meta, blocks), ie.offset, ie.size)
               == (if |Plain(blocks[i])| <= MAX_BLOCK_SIZE then Some(Plain(blocks[i])) else None)
  {
    hide Header, Data, Frame, File, Plain, IndexOf, FirstKey, Lossless, ReadBlock;
    IndexAt(z, blocks, HEADER_SIZE + |meta|, i);
    var rest := FrameInFile(z, meta, blocks, i);
    ReadFrame(z, File(z, meta, blocks), Header() + meta + Data(z, blocks[..i]), Plain(blocks[i]), rest);
  }

  lemma FrameInFile(z: Codecs, meta: Bytes, blocks: seq<seq<Entry>>, i: nat) returns (rest: Bytes)
    requires i < |blocks|
    ensures File(z, meta, blocks) == (Header() + meta + Data(z, blocks[..i])) + Frame(z, Plain(blocks[i])) + rest
  {
    hide Header, Plain, Fields, Frame, Data;
    var after := DataSplit(z, blocks, i);
    rest := Regroup(Header() + meta, Data(z, blocks[..i]), Frame(z, Plain(blocks[i])), after,
                    Frame(z, IndexPlain(IndexOf(z, blocks, HEADER_SIZE + |meta|))),
                    FooterOf(z, meta, blocks), z.sha(Body(z, meta, blocks)));
  }

  lemma Regroup(front: Bytes, pre: Bytes, frame: Bytes, after: Bytes, index: Bytes, fields: Bytes, sum: Bytes)
    returns (rest: Bytes)
    ensures front + (pre + frame + after) + index + fields + sum + FOOTER_MAGIC == (front + pre) + frame + rest
  {
    rest := after + index + fields + sum + FOOTER_MAGIC;
  }

  lemma {:induction false} FlattenFront(blocks: seq<seq<Entry>>, i: nat)
    requires i < |blocks|
    ensures Flatten(blocks[i..]) == blocks[i] + Flatten(blocks[i + 1..])
    decreases |blocks|
  {
    var n := |blocks| - 1;
    assert blocks[i..][..n - i] == blocks[i..n] == blocks[..n][i..];
    if i < n {
      FlattenFront(blocks[..n], i);
      assert blocks[i + 1..][..n - i - 1] == blocks[..n][i + 1..];
    }
  }

  /** The image's index leads, block by block, to these entries. */
  ghost predicate Serves(z: Codecs, img: Image, blocks: seq<seq<Entry>>) {
    && Indexed(img.index) && |img.index| == |blocks|
    && forall i | 0 <= i < |blocks| :: Holds(z, img.file, img.index[i], blocks[i])
  }

  ghost predicate Holds(z: Codecs, file: Bytes, ie: IndexEntry, block: seq<Entry>) {
    && -MAX_I64 - 1 <= ie.offset <= MAX_I64 && 0 < ie.size <= MAX_I64
    && block != [] && ie.firstKey == block[0].path
    && ReadBlock(z, file, ie.offset, ie.size).Some?
    && DecodeAll(ReadBlock(z, file, ie.offset, ie.size).value, []) == Run(block, None)
  }

  function StoredBlocks(blocks: seq<seq<Entry>>): (r: seq<seq<Entry>>)
    ensures |r| == |blocks|
    ensures forall i | 0 <= i < |blocks| :: r[i] == StoredAll(blocks[i])
  {
    seq(|blocks|, i requires 0 <= i < |blocks| => StoredAll(blocks[i]))
  }

  lemma {:induction false} FlattenStored(blocks: seq<seq<Entry>>)
    ensures Flatten(StoredBlocks(blocks)) == StoredAll(Flatten(blocks))
  {
    if blocks != [] {
      var n := |blocks| - 1;
      FlattenStored(blocks[..n]);
      assert StoredBlocks(blocks)[..n] == StoredBlocks(blocks[..n]);
    }
  }

  /** A written file serves what was written. */
  lemma WrittenServes(z: Codecs, meta: Bytes, blocks: seq<seq<Entry>>, img: Image)
    requires Lossless(z) && |File(z, meta, blocks)| <= MAX_I64
    requires forall b | b in blocks :: Readable(b)
    requires img.file == File(z, meta, blocks) && img.index == IndexOf(z, blocks, HEADER_SIZE + |meta|)
    ensures Serves(z, img, StoredBlocks(blocks))
  {
    hide Lossless, File, IndexOf, ReadBlock, EncodeAll, DecodeAll, Chain, AllAddressable;
    WrittenIndexed(z, meta, blocks);
    forall i | 0 <= i < |blocks| ensures Holds(z, img.file, img.index[i], StoredAll(blocks[i])) {
      assert Readable(blocks[i]);
      ReadWrittenBlock(z, meta, blocks, i);
      IndexAt(z, blocks, HEADER_SIZE + |meta|, i);
      BlockRoundTrip(blocks[i], []);
      assert blocks[i][..|blocks[i]|] == blocks[i];
    }
  }

  /** Reading on from any block yields exactly the entries of that block and all later ones, then
      EOF; from block 0, everything. */
  lemma {:induction false} StreamServed(z: Codecs, img: Image, blocks: seq<seq<Entry>>, i: nat)
    requires Serves(z, img, blocks) && i <= |blocks|
    ensures FromBlock(z, img, i) == Stream(Flatten(blocks[i..]), AtEof)
    decreases |blocks| - i
  {
    hide ReadBlock, DecodeAll;
    if i < |blocks| {
      StreamServed(z, img, blocks, i + 1);
      assert Holds(z, img.file, img.index[i], blocks[i]);
      FlattenFront(blocks, i);
    } else {
      assert blocks[i..] == [];
    }
  }
}
