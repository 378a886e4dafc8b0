/// Building a pak from what a writer holds: the offsets of the blobs, the table of contents written in place at its two
/// cursors, the header, and the parts in file order (HpakWriter::plan, emit and build in
/// engine/assetpipe/src/hpak_writer.cpp:150-265). The result is the pak that PakRoundTrip reads back.
module PakPlan {
  import opened ByteStrings
  import opened Options
  import opened OrderedSets
  import opened PakFormat
  import opened PakWriter
  import opened Sums

  // -- Writing into the table of contents -----------------------------------------------------------

  function Overwritten(b: Bytes, at: nat, bytes: Bytes): (r: Bytes)
    requires at + |bytes| <= |b|
    ensures |r| == |b|
  {
    b[..at] + bytes + b[at + |bytes|..]
  }

  method StoreBytes(toc: array<Byte>, at: nat, bytes: Bytes)
    requires at + |bytes| <= toc.Length
    modifies toc
    ensures toc[..] == Overwritten(old(toc[..]), at, bytes)
  {
    for i := 0 to |bytes|
      invariant forall k :: 0 <= k < toc.Length ==>
        toc[k] == if at <= k < at + i then bytes[k - at] else old(toc[k])
    {
      toc[at + i] := bytes[i];
    }
  }

  lemma EncodingsLength(values: seq<nat>, width: nat)
    ensures |Join(Encodings(values, width))| == |values| * width
  {
    UniformStart(Encodings(values, width), width, |values|);
    JoinLength(Encodings(values, width));
  }

  lemma EncodingsMore(values: seq<nat>, width: nat, i: nat)
    requires i < |values|
    ensures Join(Encodings(values[..i + 1], width))
            == Join(Encodings(values[..i], width)) + LittleEndian(values[i], width)
  {
    var all := Encodings(values[..i + 1], width);
    assert all[..i] == Encodings(values[..i], width);
  }

  lemma OverwrittenTwice(b: Bytes, at: nat, first: Bytes, second: Bytes)
    requires at + |first| + |second| <= |b|
    ensures Overwritten(Overwritten(b, at, first), at + |first|, second) == Overwritten(b, at, first + second)
  {
  }

  lemma OverwrittenNothing(b: Bytes, at: nat)
    requires at <= |b|
    ensures Overwritten(b, at, []) == b
  {
  }

  /// Stores numbers one behind the other; returns the position behind the last.
  method StoreNumbers(toc: array<Byte>, at: nat, values: seq<nat>, width: nat) returns (end: nat)
    requires at + |values| * width <= toc.Length
    modifies toc
    ensures end == at + |values| * width
    ensures |Join(Encodings(values, width))| == |values| * width
    ensures toc[..] == Overwritten(old(toc[..]), at, Join(Encodings(values, width)))
  {
    hide Join, Encodings, Overwritten;
    end := at;
    ghost var was := toc[..];
    EncodingsLength(values[..0], width);
    OverwrittenNothing(was, at);
    for i := 0 to |values|
      invariant end == at + i * width && |Join(Encodings(values[..i], width))| == i * width
      invariant at + i * width <= toc.Length && toc[..] == Overwritten(was, at, Join(Encodings(values[..i], width)))
    {
      Fits(i, |values|, width);
      EncodingsMore(values, width, i);
      EncodingsLength(values[..i + 1], width);
      OverwrittenTwice(was, at, Join(Encodings(values[..i], width)), LittleEndian(values[i], width));
      StoreBytes(toc, end, LittleEndian(values[i], width));
      end := end + width;
    }
    assert values[..|values|] == values;
  }

  lemma Fits(i: nat, n: nat, width: nat)
    requires i < n
    ensures i * width + width == (i + 1) * width <= n * width
  {
  }

  // -- The entries and their block sizes --------------------------------------------------------------

  /// The first entries and their block sizes stand in their regions of the table.
  ghost predicate TocSoFar(toc: Bytes, sizesAt: nat, entries: seq<Entry>, sizes: seq<nat>) {
    && |entries| * ENTRY_BYTES <= sizesAt && sizesAt + |sizes| * SIZE_BYTES <= |toc|
    && toc[..|entries| * ENTRY_BYTES] == Join(Encoded(entries))
    && toc[sizesAt..sizesAt + |sizes| * SIZE_BYTES] == Join(Encodings(sizes, SIZE_BYTES))
  }

  lemma EntryEncoded(e: Entry)
    ensures |EncodeEntry(e)| == ENTRY_BYTES
  {
    EntryStarts(e);
  }

  lemma EncodedMore(entries: seq<Entry>, e: Entry)
    ensures Join(Encoded(entries + [e])) == Join(Encoded(entries)) + EncodeEntry(e)
  {
    var all := Encoded(entries + [e]);
    assert all[..|entries|] == Encoded(entries);
  }

  lemma SizesMore(sizes: seq<nat>, more: seq<nat>)
    ensures Join(Encodings(sizes + more, SIZE_BYTES))
            == Join(Encodings(sizes, SIZE_BYTES)) + Join(Encodings(more, SIZE_BYTES))
  {
    assert Encodings(sizes + more, SIZE_BYTES) == Encodings(sizes, SIZE_BYTES) + Encodings(more, SIZE_BYTES);
    JoinConcat(Encodings(sizes, SIZE_BYTES), Encodings(more, SIZE_BYTES));
  }

  /// One entry at its place and its block sizes behind those of the entries before.
  lemma EntryStep(toc: Bytes, sizesAt: nat, entries: seq<Entry>, sizes: seq<nat>, e: Entry, more: seq<nat>)
    requires TocSoFar(toc, sizesAt, entries, sizes)
    requires (|entries| + 1) * ENTRY_BYTES <= sizesAt && sizesAt + |sizes + more| * SIZE_BYTES <= |toc|
    ensures |EncodeEntry(e)| == ENTRY_BYTES && |Join(Encodings(more, SIZE_BYTES))| == |more| * SIZE_BYTES
    ensures TocSoFar(Overwritten(Overwritten(toc, |entries| * ENTRY_BYTES, EncodeEntry(e)),
                                 sizesAt + |sizes| * SIZE_BYTES, Join(Encodings(more, SIZE_BYTES))),
                     sizesAt, entries + [e], sizes + more)
  {
    hide Join, Encodings, Encoded, EncodeEntry;
    EntryEncoded(e);
    EncodingsLength(more, SIZE_BYTES);
    EncodedMore(entries, e);
    SizesMore(sizes, more);
    var n, at := |entries| * ENTRY_BYTES, sizesAt + |sizes| * SIZE_BYTES;
    var block, tail := EncodeEntry(e), Join(Encodings(more, SIZE_BYTES));
    var once := Overwritten(toc, n, block);
    var twice := Overwritten(once, at, tail);
    assert |sizes + more| * SIZE_BYTES == |sizes| * SIZE_BYTES + |tail|;
    assert once[..n + ENTRY_BYTES] == toc[..n] + block;
    assert twice[..n + ENTRY_BYTES] == once[..n + ENTRY_BYTES];
    assert once[sizesAt..at] == toc[sizesAt..at];
    assert twice[sizesAt..at] == once[sizesAt..at] && twice[at..at + |tail|] == tail;
    assert twice[sizesAt..at + |tail|] == twice[sizesAt..at] + twice[at..at + |tail|];
  }

  ghost function FirstEntries(h: Hashes, assets: Assets, blobOrder: seq<AssetId>, n: nat): (e: seq<Entry>)
    requires Orders(assets, blobOrder) && n <= |InOrder(assets.Keys)|
    ensures |e| == n && e == Entries(h, assets, blobOrder)[..n]
  {
    Entries(h, assets, blobOrder)[..n]
  }

  lemma NextEntry(h: Hashes, assets: Assets, blobOrder: seq<AssetId>, i: nat)
    requires Orders(assets, blobOrder) && i < |InOrder(assets.Keys)|
    ensures FirstEntries(h, assets, blobOrder, i + 1) ==
            FirstEntries(h, assets, blobOrder, i) + [EntryOf(h, assets, blobOrder, InOrder(assets.Keys), i)]
  {
    hide EntryOf, InOrder;
    var all := Entries(h, assets, blobOrder);
    assert all[..i + 1] == all[..i] + [all[i]];
  }

  lemma NextSizes(assets: Assets, order: seq<AssetId>, i: nat)
    requires i < |order| && forall id :: id in order ==> id in assets
    ensures SizeTable(assets, order[..i + 1]) == SizeTable(assets, order[..i]) + Lengths(assets[order[i]].blocks)
  {
    assert order[..i + 1][..i] == order[..i];
  }

  lemma {:induction false} SizesFit(assets: Assets, order: seq<AssetId>, i: nat)
    requires i <= |order| && forall id :: id in order ==> id in assets
    ensures |SizeTable(assets, order[..i])| <= |SizeTable(assets, order)|
    decreases |order|
  {
    if i == |order| {
      assert order[..i] == order;
    } else {
      SizesFit(assets, order[..|order| - 1], i);
      assert order[..|order| - 1][..i] == order[..i];
    }
  }

  /// Entry i goes to its place and its block sizes behind those of the entries before.
  method StoreEntry(toc: array<Byte>, h: Hashes, assets: Assets, blobOrder: seq<AssetId>, tocOrder: seq<AssetId>,
                    offset: nat, i: nat, sizeAt: nat, firstBlock: nat) returns (end: nat)
    requires Orders(assets, blobOrder) && tocOrder == InOrder(assets.Keys) && i < |tocOrder|
    requires offset == OffsetOf(assets, blobOrder, tocOrder[i]) && firstBlock == |SizeTable(assets, tocOrder[..i])|
    requires sizeAt == |tocOrder| * ENTRY_BYTES + firstBlock * SIZE_BYTES
    requires |tocOrder| * ENTRY_BYTES + |SizeTable(assets, tocOrder)| * SIZE_BYTES <= toc.Length
    requires TocSoFar(toc[..], |tocOrder| * ENTRY_BYTES, FirstEntries(h, assets, blobOrder, i),
                      SizeTable(assets, tocOrder[..i]))
    modifies toc
    ensures end == sizeAt + |assets[tocOrder[i]].blocks| * SIZE_BYTES
    ensures firstBlock + |assets[tocOrder[i]].blocks| == |SizeTable(assets, tocOrder[..i + 1])|
    ensures TocSoFar(toc[..], |tocOrder| * ENTRY_BYTES, FirstEntries(h, assets, blobOrder, i + 1),
                     SizeTable(assets, tocOrder[..i + 1]))
  {
    hide OffsetOf, InOrder, Stored, TocSoFar, SizeTable, Entries, EncodeEntry, Join, Encodings, FirstEntries,
      Overwritten;
    var a := assets[tocOrder[i]];
    var e := Entry(tocOrder[i], h.hashLow(a.cooked), h.hashHigh(a.cooked), offset, |Stored(a)|, |a.cooked|, firstBlock,
                   |a.blocks|, a.codec, 0);
    NextEntry(h, assets, blobOrder, i);
    NextSizes(assets, tocOrder, i);
    SizesFit(assets, tocOrder, i + 1);
    EntryStep(toc[..], |tocOrder| * ENTRY_BYTES, FirstEntries(h, assets, blobOrder, i),
              SizeTable(assets, tocOrder[..i]), e,
              Lengths(a.blocks));
    StoreBytes(toc, i * ENTRY_BYTES, EncodeEntry(e));
    end := StoreNumbers(toc, sizeAt, Lengths(a.blocks), SIZE_BYTES);
  }

  /// The loop over the assets in id order.
  method StoreEntries(toc: array<Byte>, h: Hashes, assets: Assets, blobOrder: seq<AssetId>, tocOrder: seq<AssetId>,
                      offsets: map<AssetId, nat>) returns (sizeAt: nat)
    requires Orders(assets, blobOrder) && tocOrder == InOrder(assets.Keys)
    requires forall id :: id in assets ==> id in offsets && offsets[id] == OffsetOf(assets, blobOrder, id)
    requires |tocOrder| * ENTRY_BYTES + |SizeTable(assets, tocOrder)| * SIZE_BYTES <= toc.Length
    modifies toc
    ensures sizeAt == |tocOrder| * ENTRY_BYTES + |SizeTable(assets, tocOrder)| * SIZE_BYTES
    ensures TocSoFar(toc[..], |tocOrder| * ENTRY_BYTES, Entries(h, assets, blobOrder), SizeTable(assets, tocOrder))
  {
    hide OffsetOf, InOrder, Stored, TocSoFar, SizeTable, Entries, FirstEntries;
    ghost var table := |tocOrder| * ENTRY_BYTES;
    sizeAt := |tocOrder| * ENTRY_BYTES;
    var firstBlock := 0;
    NothingStored(toc[..], table, h, assets, blobOrder);
    for i := 0 to |tocOrder|
      invariant firstBlock == |SizeTable(assets, tocOrder[..i])| && sizeAt == table + firstBlock * SIZE_BYTES
      invariant TocSoFar(toc[..], table, FirstEntries(h, assets, blobOrder, i), SizeTable(assets, tocOrder[..i]))
    {
      sizeAt := StoreEntry(toc, h, assets, blobOrder, tocOrder, offsets[tocOrder[i]], i, sizeAt, firstBlock);
      firstBlock := firstBlock + |assets[tocOrder[i]].blocks|;
    }
    assert tocOrder[..|tocOrder|] == tocOrder;
    AllEntries(h, assets, blobOrder);
  }

  lemma NothingStored(toc: Bytes, sizesAt: nat, h: Hashes, assets: Assets, blobOrder: seq<AssetId>)
    requires Orders(assets, blobOrder) && sizesAt <= |toc|
    ensures SizeTable(assets, InOrder(assets.Keys)[..0]) == []
    ensures TocSoFar(toc, sizesAt, FirstEntries(h, assets, blobOrder, 0), SizeTable(assets, InOrder(assets.Keys)[..0]))
  {
    assert Encoded([]) == [] && Encodings([], SIZE_BYTES) == [];
  }

  lemma AllEntries(h: Hashes, assets: Assets, blobOrder: seq<AssetId>)
    requires Orders(assets, blobOrder)
    ensures FirstEntries(h, assets, blobOrder, |InOrder(assets.Keys)|) == Entries(h, assets, blobOrder)
  {
  }

  // -- The plan ---------------------------------------------------------------------------------------

  method StoredSizes(assets: Assets, order: seq<AssetId>) returns (sizes: seq<nat>)
    requires forall id :: id in order ==> id in assets
    ensures |sizes| == |order| && forall i :: 0 <= i < |sizes| ==> sizes[i] == |Stored(assets[order[i]])|
  {
    sizes := [];
    for i := 0 to |order|
      invariant |sizes| == i && forall k :: 0 <= k < i ==> sizes[k] == |Stored(assets[order[k]])|
    {
      sizes := sizes + [|Stored(assets[order[i]])|];
    }
  }

  lemma {:induction false} PlannedStart(assets: Assets, order: seq<AssetId>, sizes: seq<nat>, i: nat)
    requires forall id :: id in order ==> id in assets
    requires |sizes| == |order| && forall k :: 0 <= k < |sizes| ==> sizes[k] == |Stored(assets[order[k]])|
    requires i <= |order|
    ensures Start(Blobs(assets, order), i) == Sum(AlignedSizes(sizes)[..i])
  {
    hide Stored;
    if i > 0 {
      PlannedStart(assets, order, sizes, i - 1);
      assert AlignedSizes(sizes)[..i][..i - 1] == AlignedSizes(sizes)[..i - 1];
    }
  }

  lemma {:induction false} IndexIs(order: seq<AssetId>, i: nat)
    requires NoRepeats(order) && i < |order|
    ensures IndexOf(order, order[i]) == i
  {
    if i > 0 { IndexIs(order[1..], i - 1); }
  }

  method PlaceBlobs(assets: Assets, order: seq<AssetId>, sizes: seq<nat>, blobOffsets: seq<nat>)
    returns (offsets: map<AssetId, nat>)
    requires Orders(assets, order)
    requires |sizes| == |order| == |blobOffsets|
    requires forall k :: 0 <= k < |sizes| ==> sizes[k] == |Stored(assets[order[k]])|
    requires forall i :: 0 <= i < |order| ==> blobOffsets[i] == HEADER_BLOCK + Sum(AlignedSizes(sizes)[..i])
    ensures forall id :: id in assets ==> id in offsets && offsets[id] == OffsetOf(assets, order, id)
  {
    hide Stored, AlignedSizes, Blobs, IndexOf, Start;
    offsets := map[];
    for i := 0 to |order|
      invariant forall k :: 0 <= k < i ==> order[k] in offsets && offsets[order[k]] == OffsetOf(assets, order, order[k])
    {
      PlannedStart(assets, order, sizes, i);
      IndexIs(order, i);
      offsets := offsets[order[i] := blobOffsets[i]];
    }
    forall id | id in assets ensures id in offsets && offsets[id] == OffsetOf(assets, order, id) {
      assert id in order;
    }
  }

  lemma TocIsWhole(toc: Bytes, entries: seq<Entry>, sizes: seq<nat>, hashes: seq<nat>)
    requires |toc| == TocSize(|entries|, |sizes|, |hashes|)
    requires TocSoFar(toc, |entries| * ENTRY_BYTES, entries, sizes)
    ensures |Join(Encodings(hashes, HASH_BYTES))| == |hashes| * HASH_BYTES
    ensures Overwritten(toc, |entries| * ENTRY_BYTES + |sizes| * SIZE_BYTES, Join(Encodings(hashes, HASH_BYTES))) ==
            TocBytes(entries, sizes, hashes)
  {
    EncodingsLength(hashes, HASH_BYTES);
    hide Join, Encodings, Encoded;
    var n, m := |entries| * ENTRY_BYTES, |entries| * ENTRY_BYTES + |sizes| * SIZE_BYTES;
    assert toc[..m] == toc[..n] + toc[n..m];
  }

  /// The table of contents of a pak.
  method WriteToc(h: Hashes, assets: Assets, blobOrder: seq<AssetId>, tocOrder: seq<AssetId>,
                  offsets: map<AssetId, nat>,
                  hashes: seq<nat>, tocSize: nat) returns (toc: Bytes)
    requires Orders(assets, blobOrder) && tocOrder == InOrder(assets.Keys)
    requires forall id :: id in assets ==> id in offsets && offsets[id] == OffsetOf(assets, blobOrder, id)
    requires tocSize == TocSize(|tocOrder|, |SizeTable(assets, tocOrder)|, |hashes|)
    ensures toc == TocBytes(Entries(h, assets, blobOrder), SizeTable(assets, tocOrder), hashes)
  {
    hide OffsetOf, InOrder, SizeTable, TocSoFar, Encodings, Join, TocBytes, Entries;
    var buffer := new Byte[tocSize](_ => 0);
    var sizeAt := StoreEntries(buffer, h, assets, blobOrder, tocOrder, offsets);
    TocIsWhole(buffer[..], Entries(h, assets, blobOrder), SizeTable(assets, tocOrder), hashes);
    var end := StoreNumbers(buffer, sizeAt, hashes, HASH_BYTES);
    toc := buffer[..];
  }

  /// The blobs with their padding, in file order.
  method EmitBlobs(header: Bytes, assets: Assets, order: seq<AssetId>) returns (out: Bytes)
    requires forall id :: id in order ==> id in assets
    ensures out == header + Join(Blobs(assets, order))
  {
    hide Stored;
    ghost var blobs := Blobs(assets, order);
    out := header;
    assert header + Join(blobs[..0]) == header;
    for i := 0 to |order|
      invariant out == header + Join(blobs[..i])
    {
      var stored := Stored(assets[order[i]]);
      AlignUpBounds(|stored|);
      var padding := Zeros(AlignUp(|stored|) - |stored|);
      JoinOneMore(blobs, i, stored, padding);
      Assoc(header, Join(blobs[..i]), stored);
      Assoc(header, Join(blobs[..i]) + stored, padding);
      out := out + stored;
      out := out + padding;
    }
    assert blobs[..|order|] == blobs;
  }

  /// The running totals are the sizes of the parts, whatever the orders.
  lemma TotalsAgree(assets: Assets, ids: seq<AssetId>, blobOrder: seq<AssetId>)
    requires Orders(assets, ids) && Orders(assets, blobOrder)
    ensures |InOrder(assets.Keys)| == |blobOrder| == |ids|
    ensures |SizeTable(assets, InOrder(assets.Keys))| == BlockTotal(assets, ids)
    ensures |Join(Blobs(assets, blobOrder))| == BlobBytes(assets, ids)
  {
    hide Stored, Blobs, Join, SizeTable;
    var order := InOrder(assets.Keys);
    InOrderAscends(assets.Keys);
    SumsAgree(assets, ids, blobOrder);
    SumsAgree(assets, ids, order);
    TotalsMatch(assets, blobOrder);
    TotalsMatch(assets, order);
  }

  lemma PlannedRegion(assets: Assets, order: seq<AssetId>, sizes: seq<nat>)
    requires forall id :: id in order ==> id in assets
    requires |sizes| == |order| && forall k :: 0 <= k < |sizes| ==> sizes[k] == |Stored(assets[order[k]])|
    ensures Sum(AlignedSizes(sizes)) == |Join(Blobs(assets, order))|
  {
    hide Stored, Blobs, Join;
    PlannedStart(assets, order, sizes, |order|);
    JoinLength(Blobs(assets, order));
    assert AlignedSizes(sizes)[..|sizes|] == AlignedSizes(sizes);
  }

  lemma CountsFit(blobBytes: nat, assets: nat, assetBlocks: nat)
    requires FileSize(blobBytes, assets, assetBlocks) <= MAX_PAK
    ensures assets < U32 && assetBlocks < U32
  {
    hide PakBlockCount;
  }

  /// The sizes that the plan computes are those of its parts.
  lemma PlanSizes(w: HpakWriter, h: Hashes, blobOrder: seq<AssetId>, sizes: seq<nat>)
    requires w.Valid() && Orders(w.m_assets, blobOrder)
    requires |sizes| == |blobOrder| && forall k :: 0 <= k < |sizes| ==> sizes[k] == |Stored(w.m_assets[blobOrder[k]])|
    ensures |InOrder(w.m_assets.Keys)| == |blobOrder| == |w.m_ids|
    ensures |SizeTable(w.m_assets, InOrder(w.m_assets.Keys))| == w.m_assetBlocks
    ensures Sum(AlignedSizes(sizes)) == |Join(Blobs(w.m_assets, blobOrder))| == w.m_blobBytes
    ensures |BlockHashes(h, Join(Blobs(w.m_assets, blobOrder)))| == PakBlockCount(w.m_blobBytes)
    ensures w.m_size == FileSize(Sum(AlignedSizes(sizes)), |sizes|, w.m_assetBlocks) <= MAX_PAK
    ensures |sizes| < U32 && w.m_assetBlocks < U32
  {
    hide Stored, Blobs, AlignedSizes, Join, SizeTable, InOrder, NoRepeats, AssetsOk, FileSize, BlobBytes, BlockTotal,
      Lawful,
      Sum;
    TotalsAgree(w.m_assets, w.m_ids, blobOrder);
    PlannedRegion(w.m_assets, blobOrder, sizes);
    CountsFit(w.m_blobBytes, |w.m_ids|, w.m_assetBlocks);
    ChunkCount(Join(Blobs(w.m_assets, blobOrder)), PAK_BLOCK);
  }

  lemma TocHasSize(entries: seq<Entry>, sizes: seq<nat>, hashes: seq<nat>)
    ensures |TocBytes(entries, sizes, hashes)| == TocSize(|entries|, |sizes|, |hashes|)
  {
    TocLength(entries, sizes, hashes);
  }

  lemma PlannedIsBuilt(h: Hashes, o: PakOptions, assets: Assets, blobOrder: seq<AssetId>, header: Header)
    requires Orders(assets, blobOrder)
    requires var region := Join(Blobs(assets, blobOrder)); var sizes := SizeTable(assets, InOrder(assets.Keys));
      var entries, hashes := Entries(h, assets, blobOrder), BlockHashes(h, region);
      var toc := TocBytes(entries, sizes, hashes);
      header == Header(MAGIC, 0, 0, o.platform, 0, o.contentBuild, o.group, o.language, o.tier, 0,
                       HEADER_BLOCK + |region|,
                       |toc|, |entries|, |sizes|, |hashes|, 0, h.hash64(toc), 0)
    ensures var region := Join(Blobs(assets, blobOrder)); var sizes := SizeTable(assets, InOrder(assets.Keys));
      Build(h, o, assets, blobOrder) ==
      Sealed(h, header) + region + TocBytes(Entries(h, assets, blobOrder), sizes, BlockHashes(h, region))
  {
    hide Blobs, InOrder, SizeTable, TocBytes, Entries, BlockHashes, Sealed, Join;
  }

  /// The layout and where it puts each asset.
  method MakeLayout(w: HpakWriter, h: Hashes, blobOrder: seq<AssetId>)
    returns (layout: Option<Layout>, offsets: map<AssetId, nat>)
    requires w.Valid() && Orders(w.m_assets, blobOrder)
    ensures layout.Some? && layout.value.dataEnd == HEADER_BLOCK + |Join(Blobs(w.m_assets, blobOrder))|
    ensures layout.value.pakBlockCount == |BlockHashes(h, Join(Blobs(w.m_assets, blobOrder)))|
    ensures layout.value.tocSize == TocSize(|w.m_ids|, w.m_assetBlocks, layout.value.pakBlockCount)
    ensures forall id :: id in w.m_assets ==> id in offsets && offsets[id] == OffsetOf(w.m_assets, blobOrder, id)
    ensures |InOrder(w.m_assets.Keys)| == |w.m_ids|
            && w.m_assetBlocks == |SizeTable(w.m_assets, InOrder(w.m_assets.Keys))|
  {
    var sizes := StoredSizes(w.m_assets, blobOrder);
    PlanSizes(w, h, blobOrder, sizes);
    hide Stored, Blobs, AlignedSizes, InOrder, SizeTable, BlockHashes, Join, OffsetOf, TocSize, PakBlockCount, FileSize,
      Consistent, AssetsOk, Lawful, NoRepeats, Sum;
    offsets := map[];
    layout := PlanLayout(sizes, w.m_assetBlocks);
    if layout.None? { return; }
    offsets := PlaceBlobs(w.m_assets, blobOrder, sizes, layout.value.blobOffsets);
  }

  /// The layout, the checksums of the blocks and the table of contents.
  method MakePlan(w: HpakWriter, h: Hashes, blobOrder: seq<AssetId>, tocOrder: seq<AssetId>)
    returns (layout: Option<Layout>, toc: Bytes, ghost hashes: seq<nat>)
    requires w.Valid() && Orders(w.m_assets, blobOrder) && tocOrder == InOrder(w.m_assets.Keys)
    ensures layout.Some? && hashes == BlockHashes(h, Join(Blobs(w.m_assets, blobOrder)))
    ensures toc == TocBytes(Entries(h, w.m_assets, blobOrder), SizeTable(w.m_assets, tocOrder), hashes)
    ensures layout.value.dataEnd == HEADER_BLOCK + |Join(Blobs(w.m_assets, blobOrder))|
    ensures layout.value.tocSize == |toc| && layout.value.pakBlockCount == |hashes|
    ensures |w.m_ids| == |tocOrder| && w.m_assetBlocks == |SizeTable(w.m_assets, tocOrder)|
  {
    hide Stored, Blobs, InOrder, SizeTable, TocBytes, Entries, BlockHashes, Join, OffsetOf, TocSize, Consistent,
      AssetsOk,
      Lawful, NoRepeats;
    toc, hashes := [], [];
    var offsets;
    layout, offsets := MakeLayout(w, h, blobOrder);
    if layout.None? { return; }
    var blockHashes := HashBlobs(h, w.m_assets, blobOrder);
    hashes := blockHashes;
    toc := WriteToc(h, w.m_assets, blobOrder, tocOrder, offsets, blockHashes, layout.value.tocSize);
    TocHasSize(Entries(h, w.m_assets, blobOrder), SizeTable(w.m_assets, tocOrder), hashes);
  }

  /// Builds the pak of a writer's assets; the two orders are those the program sorts the assets into. It cannot fail,
  /// and its size is the running size.
  method BuildPak(w: HpakWriter, h: Hashes, o: PakOptions, blobOrder: seq<AssetId>, tocOrder: seq<AssetId>)
    returns (file: Option<Bytes>)
    requires w.Valid() && Orders(w.m_assets, blobOrder) && tocOrder == InOrder(w.m_assets.Keys)
    ensures file == Some(Build(h, o, w.m_assets, blobOrder))
    ensures |file.value| == w.m_size
  {
    AddsKeepPlan(h, o, w, blobOrder);
    hide Stored, Blobs, InOrder, SizeTable, TocBytes, Entries, BlockHashes, Sealed, Join, Build, Consistent, AssetsOk,
      Lawful,
      NoRepeats;
    var layout, toc, hashes := MakePlan(w, h, blobOrder, tocOrder);
    if layout.None? { return None; }
    var header := Header(MAGIC, 0, 0, o.platform, 0, o.contentBuild, o.group, o.language, o.tier, 0,
                         layout.value.dataEnd,
                         layout.value.tocSize, |w.m_ids|, w.m_assetBlocks, layout.value.pakBlockCount, 0,
                         h.hash64(toc), 0);
    var out := EmitBlobs(Sealed(h, header), w.m_assets, blobOrder);
    PlannedIsBuilt(h, o, w.m_assets, blobOrder, header);
    return Some(out + toc);
  }
}
