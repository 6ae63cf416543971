/** Opening, iterating and seeking (internal/store/reader.go). */
module FileReader {
  import opened Bytes
  import opened Canon
  import opened ScanEntry
  import opened EntryCodec
  import opened Varint
  import opened BlockCodec
  import opened Layout
  import opened Container

  datatype Next = Item(e: Entry) | NoMore | Broken(why: End)

  function StreamEnd(end: End): Next {
    if end == AtEof then NoMore else Broken(end)
  }

  /** The suffix of an ordered sequence that starts at the first key not below p. */
  function From(es: seq<Entry>, p: Path): seq<Entry> {
    if es != [] && Less(es[0].path, p) then From(es[1..], p) else es
  }

  /** On an ordered sequence From splits exactly at p: everything before is below p, nothing after. */
  lemma {:induction false} FromSplits(es: seq<Entry>, p: Path)
    requires Ordered(es)
    ensures var k := |es| - |From(es, p)|;
            && 0 <= k && From(es, p) == es[k..]
            && (forall i | 0 <= i < k :: Less(es[i].path, p))
            && (forall i | k <= i < |es| :: !Less(es[i].path, p))
  {
    if es != [] {
      var ps, qs := Paths(es), Paths(es[1..]);
      assert forall i | 0 <= i < |qs| :: qs[i] == ps[i + 1];
      if Less(es[0].path, p) {
        FromSplits(es[1..], p);
      } else {
        forall i | 0 <= i < |es| ensures !Less(es[i].path, p) {
          if i > 0 && Less(es[i].path, p) {
            assert Less(ps[0], ps[i]);
            LessTransitive(es[0].path, es[i].path, p);
          }
        }
      }
    }
  }

  lemma {:induction false} FromSkips(before: seq<Entry>, after: seq<Entry>, p: Path)
    requires forall e | e in before :: Less(e.path, p)
    requires after != [] ==> !Less(after[0].path, p)
    ensures From(before + after, p) == after
  {
    if before == [] {
      assert before + after == after;
    } else {
      assert (before + after)[1..] == before[1..] + after;
      FromSkips(before[1..], after, p);
    }
  }

  class Cursor {
    const z: Codecs
    const img: Image
    var block: int
    const dec: BlockDecoder
    var pending: bool
    ghost var loads: nat

    constructor (z: Codecs, img: Image, block: int)
      requires Indexed(img.index) && (block == -1 || 0 <= block < |img.index|)
      ensures Valid() && fresh(dec) && fresh(dec.br)
      ensures this.z == z && this.img == img && this.block == block && !pending && loads == 0
      ensures dec.Ahead() == Run([], None)
    {
      this.z, this.img, this.block, pending, loads := z, img, block, false, 0;
      dec := new BlockDecoder();
    }

    ghost predicate Valid()
      reads this, dec, dec.br
    {
      dec.Valid() && Indexed(img.index) && (block == -1 || 0 <= block < |img.index|)
    }

    /** Everything the cursor has still to return. */
    ghost function Ahead(): Stream
      reads this, dec, dec.br
      requires Valid()
    {
      var later := After(dec.Ahead(), FromBlock(z, img, block + 1));
      if pending then Stream([dec.e] + later.entries, later.end) else later
    }

    /** The next entry of the stream. EOF and a decoding fault are final; after a block that cannot
        be read, the next call goes on with the block that follows it. */
    method Next() returns (r: Next)
      requires Valid()
      modifies this, dec, dec.br
      ensures Valid()
      ensures old(Ahead()).entries != [] ==>
                r == Item(old(Ahead()).entries[0]) && dec.e == r.e && !pending
                && Ahead() == Stream(old(Ahead()).entries[1..], old(Ahead()).end)
      ensures old(Ahead()).entries == [] ==>
                r == StreamEnd(old(Ahead()).end)
                && (r != Broken(Unreadable) ==> Ahead() == old(Ahead()))
                && (r == Broken(Unreadable) ==> Ahead() == FromBlock(z, img, block + 1))
      ensures loads == old(loads) + (block - old(block))
      ensures old(pending) || old(dec.Ahead()).entries != [] ==>
                block == old(block) && dec.Ahead().fault == old(dec.Ahead()).fault
      ensures !old(pending) && old(dec.Ahead()) == Run([], None) && Loadable(z, img, old(block) + 1) ==>
                block == old(block) + 1 && dec.Ahead().fault == None
    {
      hide After, FromBlock, DecodeAll, ReadBlock, Indexed, BlockRun, BlockDecoder.Ahead, BlockDecoder.Valid;
      PendingFirst(dec.e, After(dec.Ahead(), FromBlock(z, img, block + 1)));
      if pending {
        pending := false;
        return Item(dec.e);
      }
      ghost var stream := Ahead();
      while true
        invariant Valid() && !pending && Ahead() == stream
        invariant old(block) <= block && loads == old(loads) + (block - old(block))
        invariant block == old(block) ==> dec.Ahead() == old(dec.Ahead())
        invariant block > old(block) ==> old(dec.Ahead()) == Run([], None)
        invariant block > old(block) && Loadable(z, img, old(block) + 1) ==>
                    block == old(block) + 1 && dec.Ahead().entries != [] && dec.Ahead().fault == None
        modifies this, dec, dec.br
        decreases |img.index| - block
      {
        ghost var run := dec.Ahead();
        AfterSteps(run, FromBlock(z, img, block + 1));
        var o := dec.Next();
        match o
        case Got(e) => return Item(e);
        case Failed(w) => return Broken(Undecodable(w));
        case Eof =>
        FromBlockSteps(z, img, block + 1);
        if block + 1 >= |img.index| { return NoMore; }
        var ok := LoadNext();
        if !ok {
          AfterSteps(dec.Ahead(), FromBlock(z, img, block + 1));
          return Broken(Unreadable);
        }
      }
    }

    /** The entry just returned is returned again. */
    method Unread()
      requires Valid() && !pending
      modifies this`pending
      ensures Valid() && Ahead() == Stream([dec.e] + old(Ahead()).entries, old(Ahead()).end)
    {
      hide After, FromBlock, DecodeAll, Indexed;
      pending := true;
    }

    method LoadNext() returns (ok: bool)
      requires Valid() && block + 1 < |img.index|
      modifies this`block, this`loads, dec, dec.br
      ensures Valid() && block == old(block) + 1 && loads == old(loads) + 1
      ensures BlockRun(z, img, block) == if ok then Some(dec.Ahead()) else None
      ensures !ok ==> dec.Ahead() == old(dec.Ahead())
    {
      hide DecodeAll, ReadBlock;
      block := block + 1;
      var ie := img.index[block];
      loads := loads + 1;
      var buf, _ := LoadBlock(z, img.file, ie.offset, ie.size);
      ok := buf.Some?;
      if ok { dec.Reset(buf.value); }
    }
  }

  /** The entries of block i, if it can be read. */
  ghost function BlockRun(z: Codecs, img: Image, i: nat): Option<Run>
    requires Indexed(img.index) && i < |img.index|
  {
    match ReadBlock(z, img.file, img.index[i].offset, img.index[i].size)
    case None => None
    case Some(buf) => Some(DecodeAll(buf, []))
  }

  ghost predicate Loadable(z: Codecs, img: Image, i: nat)
    requires Indexed(img.index)
  {
    && i < |img.index| && BlockRun(z, img, i).Some?
    && BlockRun(z, img, i).value.entries != [] && BlockRun(z, img, i).value.fault == None
  }

  lemma PendingFirst(e: Entry, later: Stream)
    ensures ([e] + later.entries)[0] == e && ([e] + later.entries)[1..] == later.entries
  {
  }

  lemma AfterSteps(r: Run, next: Stream)
    ensures r.entries != [] ==>
              && After(r, next).entries != [] && After(r, next).entries[0] == r.entries[0]
              && After(Run(r.entries[1..], r.fault), next)
                 == Stream(After(r, next).entries[1..], After(r, next).end)
    ensures r.entries == [] && r.fault.Some? ==> After(r, next) == Stream([], Undecodable(r.fault.value))
    ensures r == Run([], None) ==> After(r, next) == next
  {
    if r.entries != [] {
      assert (r.entries + next.entries)[1..] == r.entries[1..] + next.entries;
    }
  }

  lemma FromBlockSteps(z: Codecs, img: Image, i: nat)
    requires Indexed(img.index)
    ensures FromBlock(z, img, i) ==
            if i >= |img.index| then Stream([], AtEof)
            else if BlockRun(z, img, i) == None then Stream([], Unreadable)
            else After(BlockRun(z, img, i).value, FromBlock(z, img, i + 1))
  {
    hide After, DecodeAll, ReadBlock;
  }

  // ---- seek ------------------------------------------------------------------------------

  /** Every key before block i is below that block's first key, and later first keys follow it. */
  lemma FirstKeysOrdered(blocks: seq<seq<Entry>>, i: nat, j: nat)
    requires i < j < |blocks| && blocks[i] != [] && blocks[j] != [] && Ordered(Flatten(blocks))
    ensures forall e | e in blocks[i] :: Less(e.path, blocks[j][0].path)
  {
    var a, b := Flatten(blocks[..j]), Flatten(blocks[j..]);
    FlattenSplit(blocks, j);
    FlattenFront(blocks, j);
    PathsConcat(a, b);
    IncreasingParts(Paths(a), Paths(b));
    assert b[0] == blocks[j][0] && Paths(b)[0] in Paths(b);
    forall e | e in blocks[i] ensures Less(e.path, blocks[j][0].path) {
      InFlatten(blocks[..j], i, e);
      var k :| 0 <= k < |a| && a[k] == e;
      assert Paths(a)[k] in Paths(a);
    }
  }

  lemma {:induction false} FlattenSplit(blocks: seq<seq<Entry>>, j: nat)
    requires j <= |blocks|
    ensures Flatten(blocks) == Flatten(blocks[..j]) + Flatten(blocks[j..])
    decreases |blocks|
  {
    if j == |blocks| {
      assert blocks[..j] == blocks && blocks[j..] == [];
    } else {
      var n := |blocks| - 1;
      FlattenSplit(blocks[..n], j);
      assert blocks[..n][..j] == blocks[..j];
      assert blocks[j..][..n - j] == blocks[..n][j..];
    }
  }

  lemma {:induction false} InFlatten(blocks: seq<seq<Entry>>, i: nat, e: Entry)
    requires i < |blocks| && e in blocks[i]
    ensures e in Flatten(blocks)
    decreases |blocks|
  {
    var n := |blocks| - 1;
    if i < n { InFlatten(blocks[..n], i, e); }
  }

  lemma {:induction false} AllInFlattenLess(blocks: seq<seq<Entry>>, p: Path)
    requires forall i, e | 0 <= i < |blocks| && e in blocks[i] :: Less(e.path, p)
    ensures forall e | e in Flatten(blocks) :: Less(e.path, p)
  {
    if blocks != [] {
      var n := |blocks| - 1;
      forall i, e | 0 <= i < n && e in blocks[..n][i] ensures Less(e.path, p) { assert e in blocks[i]; }
      AllInFlattenLess(blocks[..n], p);
    }
  }

  /** The image leads to these blocks, and they are in order: what a writer-produced file gives. */
  ghost predicate Sorted(z: Codecs, img: Image, blocks: seq<seq<Entry>>) {
    Serves(z, img, blocks) && Ordered(Flatten(blocks))
  }

  lemma ServedBlock(z: Codecs, img: Image, blocks: seq<seq<Entry>>, k: nat)
    requires Serves(z, img, blocks) && k < |blocks|
    ensures blocks[k] != [] && img.index[k].firstKey == blocks[k][0].path
    ensures Loadable(z, img, k) && BlockRun(z, img, k) == Some(Run(blocks[k], None))
  {
    hide ReadBlock, DecodeAll;
    assert Holds(z, img.file, img.index[k], blocks[k]);
  }

  /** Blocks are non-empty and their first keys increase strictly. */
  ghost predicate Heads(img: Image, blocks: seq<seq<Entry>>) {
    && |img.index| == |blocks|
    && (forall k | 0 <= k < |blocks| :: blocks[k] != [] && img.index[k].firstKey == blocks[k][0].path)
    && forall h, k | 0 <= h < k < |blocks| :: Less(blocks[h][0].path, blocks[k][0].path)
  }

  lemma SortedHeads(z: Codecs, img: Image, blocks: seq<seq<Entry>>)
    requires Sorted(z, img, blocks)
    ensures Heads(img, blocks)
  {
    hide Holds, Ordered;
    forall k | 0 <= k < |blocks| ensures blocks[k] != [] && img.index[k].firstKey == blocks[k][0].path {
      ServedBlock(z, img, blocks, k);
    }
    forall h, k | 0 <= h < k < |blocks| ensures Less(blocks[h][0].path, blocks[k][0].path) {
      FirstKeysOrdered(blocks, h, k);
    }
  }

  /** Where p falls among the first keys. */
  ghost predicate Splits(blocks: seq<seq<Entry>>, n: nat, p: Path) {
    && n <= |blocks| && (forall k | 0 <= k < |blocks| :: blocks[k] != [])
    && (forall k | 0 <= k < n :: blocks[k][0].path == p || Less(blocks[k][0].path, p))
    && (forall k | n <= k < |blocks| :: Less(p, blocks[k][0].path))
  }

  /** sort.Search: the first block whose first key is above p, if the keys are in order. */
  method FindBlock(img: Image, p: Path, ghost blocks: seq<seq<Entry>>) returns (n: nat)
    ensures n <= |img.index|
    ensures Heads(img, blocks) ==> Splits(blocks, n, p)
  {
    hide Less;
    var i, j := 0, |img.index|;
    while i < j
      invariant 0 <= i <= j <= |img.index|
      invariant Heads(img, blocks) ==> forall k | 0 <= k < i :: blocks[k][0].path == p || Less(blocks[k][0].path, p)
      invariant Heads(img, blocks) ==> forall k | j <= k < |blocks| :: Less(p, blocks[k][0].path)
    {
      var h := (i + j) / 2;
      var c := CompareKey(img.index[h].firstKey, p);
      CompareDecides(img.index[h].firstKey, p);
      if c > 0 {
        if Heads(img, blocks) {
          forall k | h < k < |blocks| ensures Less(p, blocks[k][0].path) {
            LessTransitive(p, blocks[h][0].path, blocks[k][0].path);
          }
        }
        j := h;
      } else {
        if Heads(img, blocks) && blocks[h][0].path != p {
          forall k | 0 <= k < h ensures Less(blocks[k][0].path, p) {
            LessTransitive(blocks[k][0].path, blocks[h][0].path, p);
          }
        }
        i := h + 1;
      }
    }
    n := i;
  }

  /** A cursor on the first entry not below p. On a writer-produced file its stream is exactly the
      suffix of the whole stream from p on, and at most two blocks have been decompressed. */
  method Seek(z: Codecs, img: Image, p: Path, ghost blocks: seq<seq<Entry>>) returns (c: Cursor?)
    requires Indexed(img.index)
    ensures c != null ==> fresh(c) && c.Valid() && c.z == z && c.img == img
    ensures c != null ==> c.Ahead().entries == [] || !Less(c.Ahead().entries[0].path, p)
    ensures Sorted(z, img, blocks) ==>
              c != null && c.Ahead() == Stream(From(Flatten(blocks), p), AtEof) && c.loads <= 2
  {
    hide Ordered, Less, Compare, After, FromBlock, BlockRun, Skipped, Loadable, From, Flatten, DecodeAll;
    hide Indexed, Sorted, Heads, Splits, BlockDecoder.Ahead, BlockDecoder.Valid;
    ghost var sorted := Sorted(z, img, blocks);
    if sorted { SortedHeads(z, img, blocks); }
    var n := FindBlock(img, p, blocks);
    var i: int := if n == 0 then 0 else n - 1;
    c := new Cursor(z, img, i - 1);
    AfterSteps(Run([], None), FromBlock(z, img, i));
    if sorted {
      SeekStart(z, img, blocks, i, n, p);
      SeekBlocks(z, img, blocks, i, n, p);
    }
    var ok := SkipTo(c, p, blocks, i, sorted);
    if !ok { c := null; }
  }

  /** What the index gives Seek: the chosen block and the next one load, and the next is past p. */
  ghost predicate Aimed(z: Codecs, img: Image, i: nat, p: Path)
    requires Indexed(img.index)
  {
    && (i < |img.index| ==> Loadable(z, img, i))
    && (i + 1 < |img.index| ==>
          && Loadable(z, img, i + 1)
          && FromBlock(z, img, i + 1).entries != [] && !Less(FromBlock(z, img, i + 1).entries[0].path, p))
  }

  /** Seek's loop, from a cursor just before block i. */
  method SkipTo(c: Cursor, p: Path, ghost blocks: seq<seq<Entry>>, ghost i: nat, ghost sorted: bool) returns (ok: bool)
    requires c.Valid() && !c.pending && c.block == i - 1 && c.loads == 0
    requires sorted ==>
               && Skipped(blocks, i, p, [], c.Ahead()) && c.dec.Ahead() == Run([], None)
               && Aimed(c.z, c.img, i, p)
    modifies c, c.dec, c.dec.br
    ensures ok ==> c.Valid() && (c.Ahead().entries == [] || !Less(c.Ahead().entries[0].path, p))
    ensures sorted ==> ok && c.Ahead() == Stream(From(Flatten(blocks), p), AtEof) && c.loads <= 2
  {
    hide Less, Compare, After, FromBlock, BlockRun, Skipped, Loadable, From, Flatten, DecodeAll;
    hide Indexed, BlockDecoder.Ahead, BlockDecoder.Valid;
    ghost var seen: seq<Entry> := [];
    while true
      invariant c.Valid() && !c.pending && c.loads == c.block - (i - 1) && c.block >= i - 1
      invariant sorted ==> Skipped(blocks, i, p, seen, c.Ahead())
      invariant sorted ==> c.block <= i && c.dec.Ahead().fault == None
      invariant sorted && c.block < i ==> c.dec.Ahead() == Run([], None)
      decreases |c.Ahead().entries|
    {
      ghost var before := c.Ahead();
      AfterSteps(c.dec.Ahead(), FromBlock(c.z, c.img, c.block + 1));
      FromBlockSteps(c.z, c.img, c.block + 1);
      if sorted { SeekStep(blocks, i, p, seen, before); }
      var r := c.Next();
      match r
      case NoMore => return true;
      case Broken(_) => return false;
      case Item(e) =>
      var cmp := CompareKey(e.path, p);
      CompareDecides(e.path, p);
      PendingFirst(e, c.Ahead());
      if cmp >= 0 {
        NotBelowEither(e.path, p);
        c.Unread();
        return true;
      }
      seen := seen + [e];
    }
  }

  lemma NotBelowEither(a: Path, b: Path)
    requires Less(b, a) || a == b
    ensures !Less(a, b)
  {
    CompareFlip(a, b);
    CompareZero(a, b);
  }

  /** What Seek has passed over, and what is left. */
  ghost predicate Skipped(blocks: seq<seq<Entry>>, i: nat, p: Path, seen: seq<Entry>, ahead: Stream) {
    && i <= |blocks|
    && Flatten(blocks) == Flatten(blocks[..i]) + seen + ahead.entries && ahead.end == AtEof
    && (forall e | e in Flatten(blocks[..i]) + seen :: Less(e.path, p))
  }

  lemma SeekStart(z: Codecs, img: Image, blocks: seq<seq<Entry>>, i: nat, n: nat, p: Path)
    requires Sorted(z, img, blocks) && Splits(blocks, n, p) && i == (if n == 0 then 0 else n - 1)
    ensures Skipped(blocks, i, p, [], FromBlock(z, img, i))
  {
    hide Holds, Ordered, Less, FromBlock;
    StreamServed(z, img, blocks, i);
    FlattenSplit(blocks, i);
    forall k, e | 0 <= k < |blocks[..i]| && e in blocks[..i][k] ensures Less(e.path, p) {
      FirstKeysOrdered(blocks, k, k + 1);
      assert e in blocks[k];
      if blocks[k + 1][0].path != p { LessTransitive(e.path, blocks[k + 1][0].path, p); }
    }
    AllInFlattenLess(blocks[..i], p);
    assert Flatten(blocks[..i]) + [] == Flatten(blocks[..i]);
  }

  lemma SeekStep(blocks: seq<seq<Entry>>, i: nat, p: Path, seen: seq<Entry>, before: Stream)
    requires Skipped(blocks, i, p, seen, before)
    ensures before.end == AtEof
    ensures before.entries == [] || !Less(before.entries[0].path, p) ==> From(Flatten(blocks), p) == before.entries
    ensures before.entries != [] && Less(before.entries[0].path, p) ==>
              Skipped(blocks, i, p, seen + [before.entries[0]], Stream(before.entries[1..], before.end))
  {
    hide Less, Flatten;
    var x := Flatten(blocks[..i]) + seen;
    if before.entries == [] || !Less(before.entries[0].path, p) {
      FromSkips(x, before.entries, p);
    } else {
      var e, tail := before.entries[0], before.entries[1..];
      assert before.entries == [e] + tail;
      assert x + before.entries == Flatten(blocks[..i]) + (seen + [e]) + tail;
      assert Flatten(blocks[..i]) + (seen + [e]) == x + [e];
    }
  }

  /** Blocks around the one the search chose: both load, and the second is already past p. */
  lemma SeekBlocks(z: Codecs, img: Image, blocks: seq<seq<Entry>>, i: nat, n: nat, p: Path)
    requires Sorted(z, img, blocks) && Splits(blocks, n, p) && i == (if n == 0 then 0 else n - 1)
    ensures Indexed(img.index) && |img.index| == |blocks| && Aimed(z, img, i, p)
  {
    hide Holds, Ordered, Less, FromBlock, BlockRun;
    if i < |blocks| { ServedBlock(z, img, blocks, i); }
    if i + 1 < |blocks| {
      ServedBlock(z, img, blocks, i + 1);
      StreamServed(z, img, blocks, i + 1);
      FlattenFront(blocks, i + 1);
      NotBelow(p, blocks[i + 1][0].path);
    }
  }

  lemma NotBelow(a: Path, b: Path)
    requires Less(a, b)
    ensures !Less(b, a)
  {
    CompareFlip(a, b);
  }

  /** readBlock: every declared length is checked before it is trusted. */
  method LoadBlock(z: Codecs, file: Bytes, offset: i64, size: i64) returns (r: Option<Bytes>, failed: bool)
    ensures r == ReadBlock(z, file, offset, size)
    ensures failed <==> Unreached(file, offset, size)
    ensures failed ==> r == None
  {
    if size < BLOCK_HEADER_SIZE || Wrap(offset + size) > |file| { return None, false; }
    var raw := ReadAt(file, offset, size);
    if raw == None { return None, true; }
    var plainLen := GetFixed(raw.value[..4]);
    var compLen := GetFixed(raw.value[4..8]);
    if plainLen > MAX_BLOCK_SIZE || compLen != size - BLOCK_HEADER_SIZE { return None, false; }
    var out := z.decompress(raw.value[BLOCK_HEADER_SIZE..]);
    if out == None || |out.value| != plainLen { return None, false; }
    return out, false;
  }

  // ---- open, iterate, verify -------------------------------------------------------------

  /** NewReader: nothing the file declares is used before it is checked. */
  method NewReader(z: Codecs, file: Bytes) returns (r: Opened)
    ensures r == OpenFile(z, file)
    ensures r.Open? ==> Indexed(r.image.index)
  {
    hide Field, ReadIndex, ReadAt, Unreached;
    if |file| < HEADER_SIZE + FOOTER_SIZE { return Refused(Corrupt); }
    if file[..5] != MAGIC { return Refused(BadMagic); }
    if file[5] != 1 || file[6] != 1 || file[7] != 1 { return Refused(Unsupported); }
    var footer := file[|file| - FOOTER_SIZE..];
    if footer[104..] != FOOTER_MAGIC { return Refused(Corrupt); }
    var limit := |file| - FOOTER_SIZE;
    hide SectionInside;
    var sections := [(Field(footer, 0), Field(footer, 1)), (Field(footer, 2), Field(footer, 3)),
                     (Field(footer, 4), Field(footer, 5))];
    var inside := CheckSections(sections, limit);
    if !inside { return Refused(Corrupt); }
    assert SectionInside(sections[0].0, sections[0].1, limit) && SectionInside(sections[1].0, sections[1].1, limit)
        && SectionInside(sections[2].0, sections[2].1, limit);
    if Field(footer, 6) < 0 || Field(footer, 7) < 0 || Field(footer, 8) < 0 { return Refused(Corrupt); }
    if Field(footer, 1) > MAX_META_SIZE { return Refused(Corrupt); }
    var meta := ReadAt(file, Field(footer, 0), Field(footer, 1));
    if meta == None { return Refused(ReadFailed); }
    if !z.parses(meta.value) { return Refused(Corrupt); }
    var ix, failed := LoadIndex(z, file, Field(footer, 4), Field(footer, 5), Field(footer, 2),
                                Wrap(Field(footer, 2) + Field(footer, 3)));
    if failed { return Refused(ReadFailed); }
    if ix == None || |ix.value| != Field(footer, 8) { return Refused(Corrupt); }
    r := Open(Image(file, meta.value, ix.value, footer[72..104], Field(footer, 6), Field(footer, 7), Field(footer, 8)));
  }

  method CheckSections(sections: seq<(i64, i64)>, limit: int) returns (ok: bool)
    ensures ok <==> forall k | 0 <= k < |sections| :: SectionInside(sections[k].0, sections[k].1, limit)
  {
    for k := 0 to |sections|
      invariant forall j | 0 <= j < k :: SectionInside(sections[j].0, sections[j].1, limit)
    {
      var (offset, length) := sections[k];
      if offset < HEADER_SIZE || length < 0 || offset > limit || Wrap(offset + length) > limit { return false; }
    }
    ok := true;
  }

  function Extend(ix: seq<IndexEntry>, more: Option<seq<IndexEntry>>): Option<seq<IndexEntry>> {
    match more case None => None case Some(t) => Some(ix + t)
  }

  method LoadIndex(z: Codecs, file: Bytes, offset: i64, length: i64, dataStart: i64, dataEnd: i64)
    returns (r: Option<seq<IndexEntry>>, failed: bool)
    ensures r == ReadIndex(z, file, offset, length, dataStart, dataEnd)
    ensures r.Some? ==> Indexed(r.value)
    ensures failed <==> Unreached(file, offset, length)
    ensures failed ==> r == None
  {
    NothingToReach(file, offset, length);
    hide Unreached, ReadUvarint, ReadRecord, ReadBlock, Extend;
    if length == 0 { return Some([]), false; }
    var raw, unread := LoadBlock(z, file, offset, length);
    if raw == None { return None, unread; }
    var d := new ByteReader(raw.value);
    assert d.buf[0..] == d.buf;
    var count := d.Uvarint();
    if d.err.Some? || count > |raw.value| / 3 { return None, false; }
    ghost var all := ReadRecords(d.Rest(), count, dataStart, dataEnd);
    RecordsIndexed(d.Rest(), count, dataStart, dataEnd);
    ExtendNothing(all);
    var ix := [];
    var i := 0;
    while i < count
      invariant 0 <= i <= count && d.Valid() && d.err == None && fresh(d)
      invariant all == Extend(ix, ReadRecords(d.Rest(), count - i, dataStart, dataEnd))
    {
      var ie := NextRecord(d);
      FailNothing(ix);
      if d.err.Some? { return None, false; }
      if ie.offset < dataStart || ie.size <= 0 || Wrap(ie.offset + ie.size) > dataEnd { return None, false; }
      ExtendOne(ix, ie, ReadRecords(d.Rest(), count - i - 1, dataStart, dataEnd));
      ExtendAlone(ie, ReadRecords(d.Rest(), count - i - 1, dataStart, dataEnd));
      ix := ix + [ie];
      i := i + 1;
    }
    ExtendToEnd(ix);
    r, failed := Some(ix), false;
  }

  lemma NothingToReach(file: Bytes, offset: i64, length: i64)
    ensures length == 0 ==> !Unreached(file, offset, length)
  {
  }

  method NextRecord(d: ByteReader) returns (ie: IndexEntry)
    requires d.Valid() && d.err == None
    modifies d
    ensures d.Valid() && d.buf == old(d.buf) && d.At(ReadRecord(old(d.Rest())), old(d.pos))
    ensures d.err == None ==> ie == ReadRecord(old(d.Rest())).value
    ensures -MAX_I64 - 1 <= ie.offset <= MAX_I64 && -MAX_I64 - 1 <= ie.size <= MAX_I64
  {
    hide ReadUvarint, ReadString;
    var key := d.Str(MAX_STRING_SIZE);
    var offset := d.Uvarint();
    var size := d.Uvarint();
    ie := IndexEntry(key, AsSigned(offset), AsSigned(size));
  }

  lemma ExtendNothing(more: Option<seq<IndexEntry>>)
    ensures Extend([], more) == more
  {
    if more.Some? { assert [] + more.value == more.value; }
  }

  lemma FailNothing(ix: seq<IndexEntry>)
    ensures Extend(ix, None) == None
  {
  }

  lemma ExtendToEnd(ix: seq<IndexEntry>)
    ensures Extend(ix, Some([])) == Some(ix)
  {
    assert ix + [] == ix;
  }

  lemma ExtendAlone(ie: IndexEntry, more: Option<seq<IndexEntry>>)
    ensures Extend([ie], more) == match more case None => None case Some(t) => Some([ie] + t)
  {
  }

  lemma ExtendOne(ix: seq<IndexEntry>, ie: IndexEntry, later: Option<seq<IndexEntry>>)
    ensures Extend(ix, Extend([ie], later)) == Extend(ix + [ie], later)
  {
    if later.Some? { assert ix + ([ie] + later.value) == (ix + [ie]) + later.value; }
  }

  /** What a callback sees of a stream: everything up to and including the first entry it refuses. */
  function Through(es: seq<Entry>, refuses: Entry -> bool): seq<Entry> {
    if es == [] then [] else if refuses(es[0]) then [es[0]] else [es[0]] + Through(es[1..], refuses)
  }

  lemma ThroughStep(seen: seq<Entry>, ahead: seq<Entry>, refuses: Entry -> bool)
    requires ahead != []
    ensures var e, tail := ahead[0], ahead[1..];
            && (seen + [e]) + tail == seen + ahead
            && seen + Through(ahead, refuses)
               == (if refuses(e) then seen + [e] else (seen + [e]) + Through(tail, refuses))
  {
    hide Through;
    Uncons(ahead);
    Assoc(seen, [ahead[0]], ahead[1..]);
    Assoc(seen, [ahead[0]], Through(ahead[1..], refuses));
    ThroughHead(ahead, refuses);
  }

  lemma ThroughHead(ahead: seq<Entry>, refuses: Entry -> bool)
    requires ahead != []
    ensures Through(ahead, refuses)
        == if refuses(ahead[0]) then [ahead[0]] else [ahead[0]] + Through(ahead[1..], refuses)
  {
  }

  lemma Uncons<T>(s: seq<T>)
    requires s != []
    ensures s == [s[0]] + s[1..]
  {
  }

  /** The callback sees every entry of the stream in order, until it refuses one. */
  method Iterate(z: Codecs, img: Image, refuses: Entry -> bool) returns (seen: seq<Entry>, stopped: bool, end: End)
    requires Indexed(img.index)
    ensures seen == Through(FromBlock(z, img, 0).entries, refuses)
    ensures stopped ==> seen != [] && refuses(seen[|seen| - 1])
    ensures !stopped ==> seen == FromBlock(z, img, 0).entries && end == FromBlock(z, img, 0).end
  {
    hide FromBlock, After, DecodeAll, BlockDecoder.Ahead, BlockDecoder.Valid, Through, Indexed, Loadable;
    var c := new Cursor(z, img, -1);
    AfterSteps(Run([], None), FromBlock(z, img, 0));
    ghost var all := FromBlock(z, img, 0);
    seen, stopped, end := [], false, AtEof;
    NothingSeen(all.entries, Through(all.entries, refuses));
    while true
      invariant c.Valid() && fresh(c) && fresh(c.dec) && fresh(c.dec.br)
      invariant seen + c.Ahead().entries == all.entries && c.Ahead().end == all.end
      invariant Through(all.entries, refuses) == seen + Through(c.Ahead().entries, refuses)
      decreases |c.Ahead().entries|
    {
      ghost var ahead := c.Ahead().entries;
      if ahead == [] {
        SeenAll(seen, refuses);
      } else {
        ThroughStep(seen, ahead, refuses);
      }
      var r := c.Next();
      match r
      case NoMore =>
        end := AtEof;
        return;
      case Broken(why) =>
        end := why;
        return;
      case Item(e) =>
        seen := seen + [e];
        if refuses(e) {
          stopped := true;
          return;
        }
    }
  }

  lemma NothingSeen(a: seq<Entry>, b: seq<Entry>)
    ensures [] + a == a && [] + b == b
  {
  }

  lemma SeenAll(seen: seq<Entry>, refuses: Entry -> bool)
    ensures seen + [] == seen && Through([], refuses) == []
  {
  }

  method Verify(z: Codecs, img: Image) returns (ok: bool)
    requires |img.file| >= 40
    ensures ok <==> z.sha(img.file[..|img.file| - 40]) == img.digest
  {
    var covered := |img.file| - 40;
    ok := z.sha(img.file[..covered]) == img.digest;
  }
}
