/** From the writer's last state to the reader's first: the whole-file round trip. */
module WholeFile {
  import opened Bytes
  import opened Canon
  import opened ScanEntry
  import opened EntryCodec
  import opened BlockCodec
  import opened Layout
  import opened Container
  import opened FileWriter

  /** Strings within the decoder's limit. */
  predicate Storable(e: Entry) {
    |e.path| <= MAX_STRING_SIZE && |e.link| <= MAX_STRING_SIZE && |e.err| <= MAX_STRING_SIZE
  }

  ghost predicate AllStorable(es: seq<Entry>) {
    forall e | e in es :: Storable(e)
  }

  lemma {:induction false} StorableFits(es: seq<Entry>, prev: Path)
    requires AllStorable(es) && |prev| <= MAX_STRING_SIZE
    ensures FitCount(es, prev) == |es| && AllAddressable(es, prev)
  {
    if es != [] {
      assert Storable(es[0]);
      StorableFits(es[1..], es[0].path);
    }
  }

  lemma {:induction false} EncodeGrowth(es: seq<Entry>, prev: Path)
    requires es != [] && FitCount(es, prev) == |es|
    ensures |EncodeAll(es, prev)| <= |EncodeAll(es[..|es| - 1], prev)| + MAX_ENTRY_SIZE
  {
    hide Encode;
    var n := |es| - 1;
    EncodeAllSnoc(es[..n], es[n], prev);
    assert es[..n] + [es[n]] == es;
    LastFits(es, prev);
    EntrySize(es[n], LastPath(es[..n], prev));
  }

  lemma {:induction false} LastFits(es: seq<Entry>, prev: Path)
    requires es != [] && FitCount(es, prev) == |es|
    ensures Fits(es[|es| - 1], LastPath(es[..|es| - 1], prev))
  {
    hide Fits;
    if |es| > 1 {
      LastFits(es[1..], es[0].path);
      assert es[1..][..|es| - 2] == es[1..|es| - 1] == es[..|es| - 1][1..];
    }
  }

  /** Every block decodes to its end: in each, the first path is within the limit, and so is what each later
      path adds to the one before it, and every link and error. */
  ghost predicate AllFit(blocks: seq<seq<Entry>>) {
    forall b | b in blocks :: FitCount(b, []) == |b|
  }

  /** Strings within the limit are enough, however the entries are cut into blocks. */
  lemma StorableBlocksFit(blocks: seq<seq<Entry>>)
    requires AllStorable(Flatten(blocks))
    ensures AllFit(blocks)
  {
    hide Storable, FitCount;
    forall b | b in blocks ensures FitCount(b, []) == |b| {
      var i :| 0 <= i < |blocks| && blocks[i] == b;
      StorableWithin(blocks, i);
      StorableFits(b, []);
    }
  }

  lemma {:induction false} StorableWithin(blocks: seq<seq<Entry>>, i: nat)
    requires i < |blocks| && AllStorable(Flatten(blocks))
    ensures AllStorable(blocks[i])
    decreases |blocks|
  {
    hide Storable;
    var n := |blocks| - 1;
    forall e | e in Flatten(blocks[..n]) || e in blocks[n] ensures e in Flatten(blocks) {
    }
    if i < n { StorableWithin(blocks[..n], i); }
  }

  /** Paths within a block grow by at most one string each. */
  lemma {:induction false} FitAddressable(es: seq<Entry>, prev: Path)
    requires FitCount(es, prev) == |es| && |prev| + |es| * MAX_STRING_SIZE < 0x8000_0000_0000_0000
    ensures AllAddressable(es, prev)
  {
    if es != [] {
      assert Fits(es[0], prev);
      FitAddressable(es[1..], es[0].path);
    }
  }

  /** A block Add cut is below the target size plus one entry, far below the reader's limit, and
      decodes. */
  lemma CutBlockReadable(block: seq<Entry>)
    requires CutBlock(block) && Ordered(block) && Named(block) && FitCount(block, []) == |block|
    ensures |Plain(block)| < DEFAULT_BLOCK_SIZE + MAX_ENTRY_SIZE < MAX_BLOCK_SIZE
    ensures Readable(block)
  {
    EncodeGrowth(block, []);
    EncodedLength(block, []);
    FitAddressable(block, []);
    OrderedIsChain(block, []);
  }

  lemma {:induction false} BlockWithin(blocks: seq<seq<Entry>>, i: nat)
    requires i < |blocks|
    requires Ordered(Flatten(blocks)) && Named(Flatten(blocks))
    ensures Ordered(blocks[i]) && Named(blocks[i])
    decreases |blocks|
  {
    var n := |blocks| - 1;
    PathsConcat(Flatten(blocks[..n]), blocks[n]);
    IncreasingParts(Paths(Flatten(blocks[..n])), Paths(blocks[n]));
    forall e | e in Flatten(blocks[..n]) || e in blocks[n] ensures e in Flatten(blocks) {
    }
    if i < n { BlockWithin(blocks[..n], i); }
  }

  lemma StoredOrdered(es: seq<Entry>)
    ensures Paths(StoredAll(es)) == Paths(es)
  {
  }

  lemma AllReadable(blocks: seq<seq<Entry>>)
    requires AllCut(blocks) && Ordered(Flatten(blocks)) && Named(Flatten(blocks)) && AllFit(blocks)
    ensures forall b | b in blocks :: Readable(b) && |FirstKey(b)| <= MAX_STRING_SIZE
    ensures FirstKeysFit(blocks)
  {
    hide FitCount, Plain, Flatten, Ordered, Readable;
    forall b | b in blocks ensures Readable(b) && |FirstKey(b)| <= MAX_STRING_SIZE {
      var i :| 0 <= i < |blocks| && blocks[i] == b;
      BlockWithin(blocks, i);
      assert CutBlock(b);
      CutBlockReadable(b);
      FirstKeyFits(b);
    }
  }

  lemma SizedWithin(z: Codecs, meta: Bytes, blocks: seq<seq<Entry>>)
    requires Sized(z, meta, blocks)
    ensures |File(z, meta, blocks)| <= MAX_I64
  {
  }

  /** Whatever was accepted comes back: the file opens, its digest verifies, the three counters are
      exact, and reading it through yields the accepted entries in order, then EOF. */
  lemma WholeFileRoundTrip(z: Codecs, meta: Bytes, blocks: seq<seq<Entry>>, accepted: seq<Entry>)
    requires Lossless(z) && Sized(z, meta, blocks)
    requires AllCut(blocks) && accepted == Flatten(blocks) && |accepted| <= MAX_I64
    requires Ordered(accepted) && Named(accepted) && AllFit(blocks)
    ensures OpenFile(z, File(z, meta, blocks)).Open?
    ensures var img := OpenFile(z, File(z, meta, blocks)).image;
            && Verifies(z, img) && img.meta == meta
            && img.entries == |accepted| && img.errors == CountErrors(accepted) && img.blocks == |blocks|
            && Serves(z, img, StoredBlocks(blocks)) && Flatten(StoredBlocks(blocks)) == StoredAll(accepted)
            && Ordered(StoredAll(accepted))
            && FromBlock(z, img, 0) == Stream(StoredAll(accepted), AtEof)
  {
    AllReadable(blocks);
    hide Readable, File, FromBlock, Serves, Lossless, AllFit, Ordered, AllCut, Sized, OpenFile, Verifies, Stored,
        FirstKeysFit;
    SizedWithin(z, meta, blocks);
    OpenWritten(z, meta, blocks);
    var img := WrittenImage(z, meta, blocks);
    WrittenServes(z, meta, blocks, img);
    FlattenStored(blocks);
    StoredOrdered(accepted);
    StreamServed(z, img, StoredBlocks(blocks), 0);
    assert StoredBlocks(blocks)[0..] == StoredBlocks(blocks);
  }

  /** A block the decoder refuses somewhere keeps the stream from reaching EOF. */
  lemma {:induction false} StreamBreaks(z: Codecs, meta: Bytes, blocks: seq<seq<Entry>>, img: Image, i: nat, j: nat)
    requires Lossless(z) && |File(z, meta, blocks)| <= MAX_I64
    requires img.file == File(z, meta, blocks) && img.index == IndexOf(z, blocks, HEADER_SIZE + |meta|)
    requires Indexed(img.index) && j <= i < |blocks|
    requires Chain(blocks[i], []) && AllAddressable(blocks[i], []) && FitCount(blocks[i], []) < |blocks[i]|
    ensures FromBlock(z, img, j).end != AtEof
    decreases i - j
  {
    hide Lossless, File, IndexOf, ReadBlock, EncodeAll, DecodeAll, Chain, AllAddressable, FitCount;
    if j < i {
      StreamBreaks(z, meta, blocks, img, i, j + 1);
    } else {
      ReadWrittenBlock(z, meta, blocks, i);
      BlockRoundTrip(blocks[i], []);
    }
  }

  /** The limit on strings, for a whole file: the writer accepts any path, but the file opens exactly when
      every block starts with a path within the limit, and reads back to its end exactly when every block
      does. */
  lemma ReadsBackExactly(z: Codecs, meta: Bytes, blocks: seq<seq<Entry>>, accepted: seq<Entry>)
    requires Lossless(z) && Sized(z, meta, blocks)
    requires AllCut(blocks) && accepted == Flatten(blocks) && |accepted| <= MAX_I64
    requires Ordered(accepted) && Named(accepted) && forall b | b in blocks :: AllAddressable(b, [])
    ensures var o := OpenFile(z, File(z, meta, blocks));
            && (o.Open? <==> FirstKeysFit(blocks))
            && (o.Open? ==> Indexed(o.image.index))
            && (o.Open? && FromBlock(z, o.image, 0) == Stream(StoredAll(accepted), AtEof) <==> AllFit(blocks))
  {
    hide File, FromBlock, Lossless, IndexOf, AllAddressable, FitCount, CutBlock, Chain;
    forall b | b in blocks ensures |FirstKey(b)| <= MAX_I64 { FirstKeyAddressable(b); }
    OpenWritten(z, meta, blocks);
    WrittenIndexed(z, meta, blocks);
    if AllFit(blocks) {
      WholeFileRoundTrip(z, meta, blocks, accepted);
    } else if FirstKeysFit(blocks) {
      var b :| b in blocks && FitCount(b, []) != |b|;
      var i :| 0 <= i < |blocks| && blocks[i] == b;
      BlockWithin(blocks, i);
      OrderedIsChain(b, []);
      StreamBreaks(z, meta, blocks, WrittenImage(z, meta, blocks), i, 0);
    }
  }

  lemma FirstKeyAddressable(b: seq<Entry>)
    requires AllAddressable(b, [])
    ensures |FirstKey(b)| <= MAX_I64
  {
    if b != [] {
      assert Addressable(b[0], []);
      FirstShares(b[0].path);
    }
  }

  // ---- the cut ---------------------------------------------------------------------------

  lemma {:induction false} LongerPlain(es: seq<Entry>, n: nat, prev: Path)
    requires n <= |es|
    ensures |EncodeAll(es[..n], prev)| <= |EncodeAll(es, prev)|
  {
    hide Encode;
    if n > 0 {
      assert es[..n][1..] == es[1..][..n - 1];
      LongerPlain(es[1..], n - 1, es[0].path);
    }
  }

  lemma FlattenHead(a: seq<seq<Entry>>)
    requires a != []
    ensures Flatten(a) == a[0] + Flatten(a[1..])
  {
    hide Flatten;
    FlattenFront(a, 0);
    assert a[0..] == a;
  }

  lemma NoBlocks(a: seq<seq<Entry>>)
    requires AllCut(a)
    ensures a == [] <==> Flatten(a) == []
  {
    hide Plain;
    if a != [] {
      FlattenHead(a);
      assert a[0] in a;
    }
  }

  /** The first block cannot end earlier: it would be short of the target, or the last. */
  lemma FirstBlockSame(a: seq<seq<Entry>>, b: seq<seq<Entry>>)
    requires a != [] && b != [] && AllCut(a) && AllCut(b) && FullButLast(a) && Flatten(a) == Flatten(b)
    ensures |a[0]| >= |b[0]|
  {
    hide Plain, Flatten, EncodeAll;
    NoBlocks([]);
    if |a| == 1 { assert a[1..] == []; }
    FlattenHead(a);
    FlattenHead(b);
    var all := Flatten(a);
    assert all[..|a[0]|] == a[0] && all[..|b[0]|] == b[0];
    assert CutBlock(b[0]);
    if |a[0]| < |b[0]| && |a| > 1 {
      var short := b[0][..|b[0]| - 1];
      assert a[0] in a[..|a| - 1];
      assert short[..|a[0]|] == a[0];
      PlainGrows(short, |a[0]|);
    }
  }

  lemma PlainGrows(es: seq<Entry>, n: nat)
    requires n <= |es|
    ensures |Plain(es[..n])| <= |Plain(es)|
  {
    LongerPlain(es, n, []);
  }

  lemma TailCut(a: seq<seq<Entry>>)
    requires a != [] && AllCut(a) && FullButLast(a)
    ensures AllCut(a[1..]) && FullButLast(a[1..])
  {
    hide Plain;
    assert forall b | b in a[1..] :: b in a;
    if |a| > 1 {
      var some, all := a[1..][..|a| - 2], a[..|a| - 1];
      forall b | b in some ensures |Plain(b)| >= DEFAULT_BLOCK_SIZE {
        var i :| 0 <= i < |some| && some[i] == b;
        assert all[i + 1] == b;
      }
    }
  }

  /** Where the blocks are cut is determined by the entries: two writers that accepted the same entries, under the same
      metadata, have written the same file. */
  lemma {:induction false} CutIsDetermined(a: seq<seq<Entry>>, b: seq<seq<Entry>>)
    requires AllCut(a) && AllCut(b) && FullButLast(a) && FullButLast(b) && Flatten(a) == Flatten(b)
    ensures a == b
  {
    hide Plain, AllCut, FullButLast, CutBlock, Flatten;
    NoBlocks(a);
    NoBlocks(b);
    if a != [] {
      FirstBlockSame(a, b);
      FirstBlockSame(b, a);
      FlattenHead(a);
      FlattenHead(b);
      SplitSame(a[0], Flatten(a[1..]), b[0], Flatten(b[1..]));
      TailCut(a);
      TailCut(b);
      CutIsDetermined(a[1..], b[1..]);
      assert a == [a[0]] + a[1..] && b == [b[0]] + b[1..];
    }
  }

  lemma SplitSame(a: seq<Entry>, x: seq<Entry>, b: seq<Entry>, y: seq<Entry>)
    requires a + x == b + y && |a| == |b|
    ensures a == b && x == y
  {
    assert a == (a + x)[..|a|] && x == (a + x)[|a|..] && b == (b + y)[..|b|] && y == (b + y)[|b|..];
  }

  /** The footer's second counter. */
  lemma {:induction false} ErrorsMean(es: seq<Entry>)
    ensures CountErrors(es) == HowMany(es, (e: Entry) => e.err != [])
  {
    if es != [] { ErrorsMean(es[..|es| - 1]); }
  }

  /** A written file changed in its covered part only, and still opened, fails to verify exactly when the change
      changed the digest of that part. */
  lemma ChangeIsCaught(z: Codecs, meta: Bytes, blocks: seq<seq<Entry>>, file: Bytes)
    requires Lossless(z) && Sized(z, meta, blocks) && |Flatten(blocks)| <= MAX_I64
    requires forall b | b in blocks :: |FirstKey(b)| <= MAX_STRING_SIZE
    requires var n := |File(z, meta, blocks)|;
             |file| == n >= 40 && file[n - 40..] == File(z, meta, blocks)[n - 40..]
    requires OpenFile(z, file).Open?
    ensures Verifies(z, OpenFile(z, file).image)
       <==> z.sha(file[..|file| - 40]) == z.sha(File(z, meta, blocks)[..|file| - 40])
  {
    hide Lossless, Sized, File, OpenFile, Flatten, FirstKey, Verifies;
    var was, n := File(z, meta, blocks), |file|;
    OpenWritten(z, meta, blocks);
    VerifiesExactly(z, was);
    VerifiesExactly(z, file);
    assert file[n - 40..n - 8] == file[n - 40..][..32] == was[n - 40..][..32] == was[n - 40..n - 8];
  }

  /** Nothing is lost when an entry that was never hashed carries no digest, which is how the scanner
      leaves it. */
  lemma StoredIsIdentity(es: seq<Entry>)
    ensures StoredAll(es) == es <==> forall i | 0 <= i < |es| :: es[i].hashed || es[i].hash == NO_HASH
  {
    if StoredAll(es) == es {
      forall i | 0 <= i < |es| ensures es[i].hashed || es[i].hash == NO_HASH {
        assert es[i] == Stored(es[i]);
      }
    }
  }

  // ---- the limit on strings --------------------------------------------------------------

  /** A path over the limit at the start of a block is written, and then refused. */
  lemma LongFirstPathRefused(e: Entry)
    requires MAX_STRING_SIZE < |e.path| < MAX_I64 && |e.link| <= MAX_STRING_SIZE && |e.err| <= MAX_STRING_SIZE
    ensures DecodeAll(EncodeAll([e], []), []) == Run([], Some(TooLong))
  {
    hide Encode, Decode, DecodeAll, EncodeAll;
    assert !Fits(e, []);
    assert FitCount([e], []) == 0;
    assert [e][1..] == [] && Chain([e], []) && AllAddressable([e], []);
    BlockRoundTrip([e], []);
    assert [e][..0] == [];
    assert StoredAll([]) == [];
  }

  /** The same path after one it shares enough with is accepted. */
  lemma LongLaterPathAccepted(a: Entry, b: Entry)
    requires Storable(a) && a.path != [] && Less(a.path, b.path) && |b.link| <= MAX_STRING_SIZE
        && |b.err| <= MAX_STRING_SIZE
    requires |b.path| - SharedPrefix(a.path, b.path) <= MAX_STRING_SIZE
    ensures DecodeAll(EncodeAll([a, b], []), []) == Run([Stored(a), Stored(b)], None)
  {
    hide Encode, Decode, DecodeAll, EncodeAll, Less, SharedPrefix;
    FirstShares(a.path);
    assert Fits(a, []) && Fits(b, a.path);
    assert [a, b][1..] == [b] && [b][1..] == [];
    assert FitCount([b], a.path) == 1 && FitCount([a, b], []) == 2;
    NotFirst(a.path, b.path);
    assert Chain([b], a.path);
    ChainOfTwo(a, b);
    assert SharedPrefix(a.path, b.path) <= |a.path|;
    assert Addressable(a, []) && Addressable(b, a.path);
    AddressableTwo(a, b);
    BlockRoundTrip([a, b], []);
    assert [a, b][..2] == [a, b];
    assert StoredAll([a, b]) == [Stored(a), Stored(b)];
  }

  lemma AddressableTwo(a: Entry, b: Entry)
    requires Addressable(a, []) && Addressable(b, a.path)
    ensures AllAddressable([a, b], [])
  {
    hide Addressable;
    assert [b][1..] == [] && AllAddressable([], b.path);
    assert AllAddressable([b], a.path);
    assert [a, b][1..] == [b] && [a, b][0] == a;
  }

  lemma ChainOfTwo(a: Entry, b: Entry)
    requires a.path != [] && Chain([b], a.path)
    ensures Chain([a, b], [])
  {
    hide Less;
    var es := [a, b];
    assert es[1..] == [b] && es[0] == a;
  }

  lemma NotFirst(a: Path, b: Path)
    requires Less(a, b)
    ensures b != []
  {
  }

  lemma FirstShares(p: Path)
    ensures SharedPrefix([], p) == 0
  {
  }
}
