/// What is written is read back: opening a built pak succeeds and returns every asset byte for byte.
module PakRoundTrip {
  import opened ByteStrings
  import opened Options
  import opened OrderedSets
  import opened PakFormat
  import opened PakReader
  import opened PakWriter
  import opened Sums

  /// Assets that were added one by one, within the size limit.
  ghost predicate Writable(z: Zstd, h: Hashes, o: PakOptions, assets: Assets, blobOrder: seq<AssetId>) {
    && HashesFit(h) && OptionsOk(o) && AssetsOk(z, assets) && Orders(assets, blobOrder)
    && |Build(h, o, assets, blobOrder)| <= MAX_PAK
  }

  lemma Split(a: Bytes, b: Bytes, c: Bytes)
    ensures var w := a + b + c;
            w[..|a|] == a && w[|a|..|a| + |b|] == b && w[|a| + |b|..] == c
  {
  }

  // -- The header ----------------------------------------------------------------------------

  lemma CountsFit(h: Hashes, o: PakOptions, assets: Assets, blobOrder: seq<AssetId>)
    requires HashesFit(h) && OptionsOk(o) && Orders(assets, blobOrder) && |Build(h, o, assets, blobOrder)| <= MAX_PAK
    ensures var p := PlanOf(h, o, assets, blobOrder);
            HeaderFits(p.header)
            && |Build(h, o, assets, blobOrder)| == HEADER_BLOCK + |p.region| + p.header.tocSize
            && p.header.tocSize == TocSize(|p.entries|, |p.sizes|, |p.hashes|)
            && |p.hashes| == PakBlockCount(|p.region|)
  {
    var p := PlanOf(h, o, assets, blobOrder);
    SealedLength(h, p.header);
    TocLength(p.entries, p.sizes, p.hashes);
    ChunkCount(p.region, PAK_BLOCK);
  }

  lemma DecodesPrefix(b: Bytes)
    requires |b| >= HEADER_BYTES
    ensures DecodeHeader(b) == DecodeHeader(b[..HEADER_BYTES])
  {
    LoadsPrefix(b);
  }

  lemma LoadsPrefix(b: Bytes)
    requires |b| >= HEADER_BYTES
    ensures forall at: nat, width: nat {:trigger Load(b, at, width)} :: at + width <= HEADER_BYTES ==>
              Load(b, at, width) == Load(b[..HEADER_BYTES], at, width)
  {
    forall at: nat, width: nat {:trigger Load(b, at, width)} | at + width <= HEADER_BYTES
      ensures Load(b, at, width) == Load(b[..HEADER_BYTES], at, width)
    {
      assert b[..HEADER_BYTES][at..at + width] == b[at..at + width];
    }
  }

  lemma SealedReads(h: Hashes, header: Header)
    requires HashesFit(h) && HeaderFits(header)
    ensures var block := Sealed(h, header);
            |block| == HEADER_BLOCK
            && DecodeHeader(block) == header.(headerHash := h.hash64(block[..HASHED_BYTES]))
            && block[HEADER_BYTES..] == Zeros(HEADER_BLOCK - HEADER_BYTES)
  {
    HeaderLength(header);
    var block, hash := Sealed(h, header), h.hash64(EncodeHeader(header)[..HASHED_BYTES]);
    SealedLength(h, header);
    HashedPartFixed(header, hash);
    HeaderRoundTrip(header.(headerHash := hash));
    DecodesPrefix(block);
    assert block[..HEADER_BYTES] == EncodeHeader(header.(headerHash := hash));
    assert block[..HASHED_BYTES] == block[..HEADER_BYTES][..HASHED_BYTES];
  }

  // -- The tables ----------------------------------------------------------------------------

  lemma NumberRead(b: Bytes, at: nat, parts: seq<Bytes>, values: seq<nat>, width: nat, i: nat)
    requires at + |Join(parts)| <= |b| && b[at..at + |Join(parts)|] == Join(parts) && |parts| == |values|
             && i < |values|
    requires forall k :: 0 <= k < |values| ==> parts[k] == LittleEndian(values[k], width)
    requires values[i] < Pow256(width)
    ensures TableAt(b, at, i, width) == values[i]
  {
    UniformStart(parts, width, i);
    PartLoads(parts, i, values[i], width);
    LoadsWithin(b, at, Join(parts), Start(parts, i), width);
  }

  lemma LoadsWithin(b: Bytes, at: nat, part: Bytes, from: nat, width: nat)
    requires at + |part| <= |b| && b[at..at + |part|] == part && from + width <= |part|
    ensures Load(b, at + from, width) == Load(part, from, width)
  {
    assert forall k :: 0 <= k < |part| ==> part[k] == b[at + k];
    assert part[from..from + width] == b[at + from..at + from + width];
  }

  lemma NumbersRead(b: Bytes, at: nat, parts: seq<Bytes>, values: seq<nat>, width: nat)
    requires at + |Join(parts)| <= |b| && b[at..at + |Join(parts)|] == Join(parts) && |parts| == |values|
    requires forall i :: 0 <= i < |values| ==> parts[i] == LittleEndian(values[i], width) && values[i] < Pow256(width)
    ensures Table(b, at, |values|, width) == values
  {
    forall i | 0 <= i < |values| ensures TableAt(b, at, i, width) == values[i] {
      NumberRead(b, at, parts, values, width, i);
    }
  }

  lemma EncodedStarts(entries: seq<Entry>, i: nat)
    requires i < |entries|
    ensures Start(Encoded(entries), i) == i * ENTRY_BYTES && |EncodeEntry(entries[i])| == ENTRY_BYTES
  {
    forall k | 0 <= k < |entries| ensures |Encoded(entries)[k]| == ENTRY_BYTES { EntryStarts(entries[k]); }
    UniformStart(Encoded(entries), ENTRY_BYTES, i);
  }

  lemma EntryRead(toc: Bytes, entries: seq<Entry>, i: nat)
    requires |entries| * ENTRY_BYTES <= |toc| && toc[..|entries| * ENTRY_BYTES] == Join(Encoded(entries))
    requires i < |entries| && EntryFits(entries[i])
    ensures DecodeEntry(toc[i * ENTRY_BYTES..i * ENTRY_BYTES + ENTRY_BYTES]) == entries[i]
  {
    EncodedStarts(entries, i);
    JoinPart(Encoded(entries), i);
    EntryRoundTrip(entries[i]);
    assert toc[..|entries| * ENTRY_BYTES][i * ENTRY_BYTES..i * ENTRY_BYTES + ENTRY_BYTES]
        == toc[i * ENTRY_BYTES..i * ENTRY_BYTES + ENTRY_BYTES];
  }

  lemma EntriesRead(toc: Bytes, entries: seq<Entry>)
    requires |entries| * ENTRY_BYTES <= |toc| && toc[..|entries| * ENTRY_BYTES] == Join(Encoded(entries))
    requires forall i :: 0 <= i < |entries| ==> EntryFits(entries[i])
    ensures Decoded(toc, |entries|) == entries
  {
    forall i | 0 <= i < |entries| ensures Decoded(toc, |entries|)[i] == entries[i] { EntryRead(toc, entries, i); }
  }

  lemma TocParts(entries: seq<Entry>, sizes: seq<nat>, hashes: seq<nat>)
    ensures var toc, at, end := TocBytes(entries, sizes, hashes), |entries| * ENTRY_BYTES,
                                |entries| * ENTRY_BYTES + |sizes| * SIZE_BYTES;
            && |toc| == TocSize(|entries|, |sizes|, |hashes|) == end + |hashes| * HASH_BYTES
            && toc[..at] == Join(Encoded(entries)) && toc[at..end] == Join(Encodings(sizes, SIZE_BYTES))
            && toc[end..end + |hashes| * HASH_BYTES] == Join(Encodings(hashes, HASH_BYTES))
  {
    var toc := TocBytes(entries, sizes, hashes);
    var a, b, c := Join(Encoded(entries)), Join(Encodings(sizes, SIZE_BYTES)), Join(Encodings(hashes, HASH_BYTES));
    TocLength(entries, sizes, hashes);
    Split(a, b, c);
    assert toc[|a| + |b|..|a| + |b| + |c|] == toc[|a| + |b|..];
  }

  lemma TocReads(entries: seq<Entry>, sizes: seq<nat>, hashes: seq<nat>)
    requires forall i :: 0 <= i < |entries| ==> EntryFits(entries[i])
    requires forall i :: 0 <= i < |sizes| ==> sizes[i] < U32
    requires forall i :: 0 <= i < |hashes| ==> hashes[i] < U64
    ensures |TocBytes(entries, sizes, hashes)| == TocSize(|entries|, |sizes|, |hashes|)
    ensures Decoded(TocBytes(entries, sizes, hashes), |entries|) == entries
    ensures Table(TocBytes(entries, sizes, hashes), |entries| * ENTRY_BYTES, |sizes|, SIZE_BYTES) == sizes
    ensures Table(TocBytes(entries, sizes, hashes), |entries| * ENTRY_BYTES + |sizes| * SIZE_BYTES, |hashes|,
                  HASH_BYTES)
            == hashes
  {
    hide *;
    TocParts(entries, sizes, hashes);
    var at := |entries| * ENTRY_BYTES;
    TablesRead(TocBytes(entries, sizes, hashes), at, at + |sizes| * SIZE_BYTES, entries, sizes, hashes);
  }

  lemma TablesRead(toc: Bytes, at: nat, end: nat, entries: seq<Entry>, sizes: seq<nat>, hashes: seq<nat>)
    requires forall i :: 0 <= i < |entries| ==> EntryFits(entries[i])
    requires forall i :: 0 <= i < |sizes| ==> sizes[i] < U32
    requires forall i :: 0 <= i < |hashes| ==> hashes[i] < U64
    requires at == |entries| * ENTRY_BYTES && end == at + |sizes| * SIZE_BYTES && |toc| == end + |hashes| * HASH_BYTES
    requires toc[..at] == Join(Encoded(entries)) && toc[at..end] == Join(Encodings(sizes, SIZE_BYTES))
    requires toc[end..end + |hashes| * HASH_BYTES] == Join(Encodings(hashes, HASH_BYTES))
    ensures Decoded(toc, |entries|) == entries
    ensures Table(toc, at, |sizes|, SIZE_BYTES) == sizes && Table(toc, end, |hashes|, HASH_BYTES) == hashes
  {
    hide *;
    EntriesRead(toc, entries);
    assert Table(toc, at, |sizes|, SIZE_BYTES) == sizes by { SizesRead(toc, at, sizes); }
    assert Table(toc, end, |hashes|, HASH_BYTES) == hashes by { HashesRead(toc, end, hashes); }
  }

  lemma SizesRead(b: Bytes, at: nat, sizes: seq<nat>)
    requires at + |sizes| * SIZE_BYTES <= |b| && b[at..at + |sizes| * SIZE_BYTES] == Join(Encodings(sizes, SIZE_BYTES))
    requires forall i :: 0 <= i < |sizes| ==> sizes[i] < U32
    ensures Table(b, at, |sizes|, SIZE_BYTES) == sizes
  {
    Widths();
    NumbersRead(b, at, Encodings(sizes, SIZE_BYTES), sizes, SIZE_BYTES);
  }

  lemma HashesRead(b: Bytes, at: nat, hashes: seq<nat>)
    requires at + |hashes| * HASH_BYTES <= |b|
             && b[at..at + |hashes| * HASH_BYTES] == Join(Encodings(hashes, HASH_BYTES))
    requires forall i :: 0 <= i < |hashes| ==> hashes[i] < U64
    ensures Table(b, at, |hashes|, HASH_BYTES) == hashes
  {
    Widths();
    NumbersRead(b, at, Encodings(hashes, HASH_BYTES), hashes, HASH_BYTES);
  }

  // -- The entries ---------------------------------------------------------------------------

  lemma SizeTableGrows(assets: Assets, order: seq<AssetId>)
    requires (forall id :: id in order ==> id in assets) && order != []
    ensures var shorter, lengths := SizeTable(assets, order[..|order| - 1]), Lengths(assets[order[|order| - 1]].blocks);
            SizeTable(assets, order) == shorter + lengths
  {
  }

  lemma SliceOfPrefix(longer: seq<nat>, shorter: seq<nat>, from: nat, to: nat)
    requires shorter <= longer && from <= to <= |shorter|
    ensures longer[from..to] == shorter[from..to]
  {
  }

  /// The block sizes of an asset lie in the table from its first block on.
  lemma {:induction false} SizesPlaced(assets: Assets, order: seq<AssetId>, i: nat)
    requires (forall id :: id in order ==> id in assets) && i < |order|
    ensures var table, first := SizeTable(assets, order), |SizeTable(assets, order[..i])|;
            var lengths := Lengths(assets[order[i]].blocks);
            first + |lengths| <= |table| && table[first..first + |lengths|] == lengths
    decreases |order|
  {
    hide SizeTable, Lengths;
    var n := |order| - 1;
    SizeTableGrows(assets, order);
    if i < n {
      SizesPlaced(assets, order[..n], i);
      assert order[..n][..i] == order[..i];
      var first := |SizeTable(assets, order[..i])|;
      SliceOfPrefix(SizeTable(assets, order), SizeTable(assets, order[..n]), first,
                    first + |Lengths(assets[order[i]].blocks)|);
    }
  }

  lemma {:induction false} SumOfLengths(blocks: seq<Bytes>)
    ensures Sum(Lengths(blocks)) == |Join(blocks)|
  {
    if blocks != [] {
      SumOfLengths(blocks[..|blocks| - 1]);
      assert Lengths(blocks)[..|blocks| - 1] == Lengths(blocks[..|blocks| - 1]);
    }
  }

  lemma {:induction false} SizesBounded(z: Zstd, assets: Assets, order: seq<AssetId>)
    requires AssetsOk(z, assets) && forall id :: id in order ==> id in assets
    ensures forall i :: 0 <= i < |SizeTable(assets, order)| ==> 0 < SizeTable(assets, order)[i] <= MAX_STORED_BLOCK
  {
    if order != [] {
      var a := assets[order[|order| - 1]];
      SizesBounded(z, assets, order[..|order| - 1]);
      assert AssetOk(z, assets[order[|order| - 1]]);
      forall k | 0 <= k < |a.blocks| ensures 0 < |a.blocks[k]| <= MAX_STORED_BLOCK { assert BlockOk(z, a, k); }
    }
  }

  lemma StoredOk(z: Zstd, assets: Assets, id: AssetId)
    requires AssetsOk(z, assets) && id in assets
    ensures AssetOk(z, assets[id])
  {
  }

  /// The table's sizes of an asset are what its entry promises.
  lemma SizesMatch(z: Zstd, assets: Assets, order: seq<AssetId>, i: nat, e: Entry)
    requires AssetsOk(z, assets) && (forall id :: id in order ==> id in assets) && i < |order|
    requires var a := assets[order[i]];
             e.rawSize == |a.cooked| && e.codec == a.codec && e.blockCount == |a.blocks| && e.compSize == |Stored(a)|
    ensures var table, first := SizeTable(assets, order), |SizeTable(assets, order[..i])|;
            && first + e.blockCount <= |table|
            && (forall k :: 0 <= k < e.blockCount ==> BlockSizeAt(e, table, first, k))
            && Sum(table[first..first + e.blockCount]) == e.compSize
  {
    hide SizeTable, Sum, Join, Chunks, AssetBlockCount, AssetsOk;
    var table, first, a := SizeTable(assets, order), |SizeTable(assets, order[..i])|, assets[order[i]];
    SizesPlaced(assets, order, i);
    SumOfLengths(a.blocks);
    StoredOk(z, assets, order[i]);
    forall k | 0 <= k < e.blockCount ensures BlockSizeAt(e, table, first, k) {
      assert BlockOk(z, a, k);
      assert table[first + k] == table[first..first + e.blockCount][k];
    }
  }

  /// The assets of a pak with the blob region that holds them.
  ghost predicate Placed(z: Zstd, h: Hashes, assets: Assets, blobOrder: seq<AssetId>, region: Bytes) {
    && HashesFit(h) && AssetsOk(z, assets) && Orders(assets, blobOrder) && region == Join(Blobs(assets, blobOrder))
    && |region| <= MAX_PAK && |SizeTable(assets, InOrder(assets.Keys))| < U32
  }

  lemma AssetFacts(z: Zstd, assets: Assets, id: AssetId)
    requires AssetsOk(z, assets) && id in assets
    ensures 0 < id < U64 && |assets[id].cooked| <= MAX_ASSET && assets[id].codec <= CODEC_ZSTD
    ensures |assets[id].blocks| == AssetBlockCount(|assets[id].cooked|)
  {
    assert AssetOk(z, assets[id]);
  }

  lemma EntryFields(z: Zstd, h: Hashes, assets: Assets, blobOrder: seq<AssetId>, region: Bytes, i: nat)
    requires Placed(z, h, assets, blobOrder, region) && i < |InOrder(assets.Keys)|
    ensures var order, e := InOrder(assets.Keys), Entries(h, assets, blobOrder)[i];
            && e.id == order[i] && 0 < e.id < U64 && e.codec <= CODEC_ZSTD && e.reserved == 0
            && e.hashLow == h.hashLow(assets[order[i]].cooked) && e.hashHigh == h.hashHigh(assets[order[i]].cooked)
            && e.rawSize == |assets[order[i]].cooked| <= MAX_ASSET && e.codec == assets[order[i]].codec
            && e.blockCount == |assets[order[i]].blocks| == AssetBlockCount(e.rawSize)
            && e.firstBlock == |SizeTable(assets, order[..i])| && e.compSize == |Stored(assets[order[i]])|
            && HEADER_BLOCK <= e.offset && e.offset % ALIGNMENT == 0 && e.offset + e.compSize <= HEADER_BLOCK + |region|
            && region[e.offset - HEADER_BLOCK..e.offset - HEADER_BLOCK + e.compSize] == Stored(assets[order[i]])
  {
    hide AssetsOk, OffsetOf, Stored, AssetBlockCount, SizeTable, HashesFit, Join, Blobs;
    var order := InOrder(assets.Keys);
    var id := order[i];
    assert id in order && id in blobOrder;
    AssetFacts(z, assets, id);
    BlobAt(assets, blobOrder, id, region, OffsetOf(assets, blobOrder, id));
  }

  lemma EntryAccepted(z: Zstd, h: Hashes, assets: Assets, blobOrder: seq<AssetId>, region: Bytes, i: nat)
    requires Placed(z, h, assets, blobOrder, region) && i < |InOrder(assets.Keys)|
    ensures var order, e := InOrder(assets.Keys), Entries(h, assets, blobOrder)[i];
            EntryFits(e)
            && EntryOk(e, if i == 0 then 0 else order[i - 1], |SizeTable(assets, order[..i])|, SizeTable(assets, order),
                       HEADER_BLOCK + |region|)
  {
    hide EntryOf, AssetsOk, Stored, SizeTable, OffsetOf, AssetBlockCount, BlockSizeAt, Sum, InOrder, Join, Blobs;
    var order, e := InOrder(assets.Keys), Entries(h, assets, blobOrder)[i];
    EntryFields(z, h, assets, blobOrder, region, i);
    SizesMatch(z, assets, order, i, e);
    IdsAscend(assets, i);
  }

  lemma IdsAscend(assets: Assets, i: nat)
    requires i < |InOrder(assets.Keys)|
    ensures i > 0 ==> InOrder(assets.Keys)[i - 1] < InOrder(assets.Keys)[i]
  {
    InOrderAscends(assets.Keys);
  }

  lemma BlobAt(assets: Assets, order: seq<AssetId>, id: AssetId, region: Bytes, offset: nat)
    requires Orders(assets, order) && id in assets && region == Join(Blobs(assets, order))
    requires offset == OffsetOf(assets, order, id)
    ensures HEADER_BLOCK <= offset && offset % ALIGNMENT == 0
            && offset + |Stored(assets[id])| <= HEADER_BLOCK + |region|
    ensures region[offset - HEADER_BLOCK..offset - HEADER_BLOCK + |Stored(assets[id])|] == Stored(assets[id])
  {
    BlobPlaced(assets, order, id);
    OffsetAligned(offset);
  }

  lemma OffsetAligned(offset: nat)
    requires offset >= HEADER_BLOCK && (offset - HEADER_BLOCK) % ALIGNMENT == 0
    ensures offset % ALIGNMENT == 0
  {
  }

  lemma {:induction false} EntriesAccepted(z: Zstd, h: Hashes, assets: Assets, blobOrder: seq<AssetId>, region: Bytes,
                                           i: nat)
    requires Placed(z, h, assets, blobOrder, region) && i <= |InOrder(assets.Keys)|
    ensures var order := InOrder(assets.Keys);
            CheckEntries(Entries(h, assets, blobOrder), i, if i == 0 then 0 else order[i - 1],
                         |SizeTable(assets, order[..i])|, SizeTable(assets, order), HEADER_BLOCK + |region|)
            == Some(|SizeTable(assets, order)|)
    decreases |InOrder(assets.Keys)| - i
  {
    hide EntryOf, EntryOk, EntryFits, AssetsOk, SizeTable, Placed, AssetBlockCount, Stored;
    var order := InOrder(assets.Keys);
    if i == |order| {
      assert order[..i] == order;
    } else {
      EntryFields(z, h, assets, blobOrder, region, i);
      EntryAccepted(z, h, assets, blobOrder, region, i);
      EntriesAccepted(z, h, assets, blobOrder, region, i + 1);
      SizeTableStep(assets, order, i);
    }
  }

  lemma SizeTableStep(assets: Assets, order: seq<AssetId>, i: nat)
    requires (forall id :: id in order ==> id in assets) && i < |order|
    ensures |SizeTable(assets, order[..i + 1])| == |SizeTable(assets, order[..i])| + |assets[order[i]].blocks|
  {
    assert order[..i + 1][..i] == order[..i];
  }

  // -- Opening -------------------------------------------------------------------------------

  ghost function Opened(h: Hashes, o: PakOptions, assets: Assets, blobOrder: seq<AssetId>): Pak
    requires Orders(assets, blobOrder)
  {
    var p := PlanOf(h, o, assets, blobOrder);
    Pak(Build(h, o, assets, blobOrder), HEADER_BLOCK + |p.region|, p.entries, p.sizes, p.hashes)
  }

  lemma RegionAligned(assets: Assets, order: seq<AssetId>)
    requires forall id :: id in order ==> id in assets
    ensures (HEADER_BLOCK + |Join(Blobs(assets, order))|) % ALIGNMENT == 0
  {
    BlobsAligned(assets, order);
    StartsAligned(Blobs(assets, order), |order|);
    JoinLength(Blobs(assets, order));
  }

  /// A file of a sealed header, a region and tables that pass the checks opens.
  lemma ChecksPass(h: Hashes, file: Bytes, sealed: Bytes, header: Header, p: Pak, region: Bytes, toc: Bytes,
                   platform: Option<nat>)
    requires file == sealed + region + toc && |file| <= MAX_PAK
    requires |sealed| == HEADER_BLOCK && DecodeHeader(sealed) == header && HeaderSealed(h, sealed, header)
    requires header.magic == MAGIC && header.version == 0 && LayoutOk(header, |file|) && h.hash64(toc) == header.tocHash
    requires platform.None? || platform.value == header.platform
    requires header.tocOffset == HEADER_BLOCK + |region| == p.dataEnd && p.file == file
    requires header.assetCount == |p.entries| && header.assetBlockCount == |p.sizes|
             && header.pakBlockCount == |p.hashes|
    requires |toc| == TocSize(|p.entries|, |p.sizes|, |p.hashes|)
    requires Decoded(toc, |p.entries|) == p.entries
    requires Table(toc, |p.entries| * ENTRY_BYTES, |p.sizes|, SIZE_BYTES) == p.sizes
    requires Table(toc, |p.entries| * ENTRY_BYTES + |p.sizes| * SIZE_BYTES, |p.hashes|, HASH_BYTES) == p.hashes
    requires CheckEntries(p.entries, 0, 0, 0, p.sizes, p.dataEnd) == Some(|p.sizes|)
    ensures Parse(h, file, platform) == Ok(p)
  {
    hide DecodeHeader, HeaderSealed, CheckEntries, Decoded, Table;
    Split(sealed, region, toc);
  }

  lemma EntriesFit(z: Zstd, h: Hashes, assets: Assets, blobOrder: seq<AssetId>, region: Bytes)
    requires Placed(z, h, assets, blobOrder, region)
    ensures forall i :: 0 <= i < |Entries(h, assets, blobOrder)| ==> EntryFits(Entries(h, assets, blobOrder)[i])
  {
    hide EntryOf, EntryOk, EntryFits, InOrder, SizeTable;
    forall i | 0 <= i < |Entries(h, assets, blobOrder)| ensures EntryFits(Entries(h, assets, blobOrder)[i]) {
      EntryAccepted(z, h, assets, blobOrder, region, i);
    }
  }

  lemma HashesFitTable(h: Hashes, region: Bytes)
    requires HashesFit(h)
    ensures forall i :: 0 <= i < |BlockHashes(h, region)| ==> BlockHashes(h, region)[i] < U64
  {
  }

  lemma SizesFitTable(z: Zstd, assets: Assets)
    requires AssetsOk(z, assets)
    ensures forall i ::
              0 <= i < |SizeTable(assets, InOrder(assets.Keys))| ==> SizeTable(assets, InOrder(assets.Keys))[i] < U32
  {
    hide AssetsOk, InOrder;
    SizesBounded(z, assets, InOrder(assets.Keys));
  }

  lemma ChecksOpen(z: Zstd, h: Hashes, assets: Assets, blobOrder: seq<AssetId>, region: Bytes, sizes: seq<nat>)
    requires Placed(z, h, assets, blobOrder, region) && sizes == SizeTable(assets, InOrder(assets.Keys))
    ensures CheckEntries(Entries(h, assets, blobOrder), 0, 0, 0, sizes, HEADER_BLOCK + |region|) == Some(|sizes|)
  {
    EntriesAccepted(z, h, assets, blobOrder, region, 0);
    assert InOrder(assets.Keys)[..0] == [];
    NoSizes(assets);
  }

  lemma NoSizes(assets: Assets)
    ensures |SizeTable(assets, [])| == 0
  {
  }

  lemma WritableIsPlaced(z: Zstd, h: Hashes, o: PakOptions, assets: Assets, blobOrder: seq<AssetId>)
    requires Writable(z, h, o, assets, blobOrder)
    ensures Placed(z, h, assets, blobOrder, PlanOf(h, o, assets, blobOrder).region)
  {
    CountsFit(h, o, assets, blobOrder);
  }

  lemma HeaderPasses(z: Zstd, h: Hashes, o: PakOptions, assets: Assets, blobOrder: seq<AssetId>)
    requires Writable(z, h, o, assets, blobOrder)
    ensures var p := PlanOf(h, o, assets, blobOrder);
            var sealed := Sealed(h, p.header);
            && |sealed| == HEADER_BLOCK
            && DecodeHeader(sealed) == p.header.(headerHash := h.hash64(sealed[..HASHED_BYTES]))
            && HeaderSealed(h, sealed, DecodeHeader(sealed))
            && LayoutOk(DecodeHeader(sealed), |Build(h, o, assets, blobOrder)|)
  {
    CountsFit(h, o, assets, blobOrder);
    SealedReads(h, PlanOf(h, o, assets, blobOrder).header);
    RegionAligned(assets, blobOrder);
  }

  /// Opening a built pak succeeds and yields its tables, for its own platform or for any.
  lemma OpensAsWritten(z: Zstd, h: Hashes, o: PakOptions, assets: Assets, blobOrder: seq<AssetId>,
                       platform: Option<nat>)
    requires Writable(z, h, o, assets, blobOrder)
    requires platform.None? || platform.value == o.platform
    ensures Parse(h, Build(h, o, assets, blobOrder), platform) == Ok(Opened(h, o, assets, blobOrder))
  {
    hide Sealed, TocBytes, Decoded, HeaderSealed, LayoutOk, Placed, CheckEntries, BlockHashes, Entries, SizeTable,
      TocSize, Table, InOrder, Join, Blobs, DecodeHeader;
    var p := PlanOf(h, o, assets, blobOrder);
    HeaderPasses(z, h, o, assets, blobOrder);
    WritableIsPlaced(z, h, o, assets, blobOrder);
    EntriesFit(z, h, assets, blobOrder, p.region);
    SizesFitTable(z, assets);
    HashesFitTable(h, p.region);
    TocReads(p.entries, p.sizes, p.hashes);
    ChecksOpen(z, h, assets, blobOrder, p.region, p.sizes);
    ChecksPass(h, Build(h, o, assets, blobOrder), Sealed(h, p.header), DecodeHeader(Sealed(h, p.header)),
               Opened(h, o, assets, blobOrder), p.region, TocBytes(p.entries, p.sizes, p.hashes), platform);
  }

  // -- Reading -------------------------------------------------------------------------------

  /// The entries of an opened pak have ascending ids.
  predicate IdsAscending(entries: seq<Entry>) {
    forall i, j :: 0 <= i < j < |entries| ==> entries[i].id < entries[j].id
  }

  /// The binary search finds an entry exactly when there is one.
  lemma {:induction false} LowerBoundFinds(entries: seq<Entry>, id: nat, lo: nat, hi: nat)
    requires IdsAscending(entries) && lo <= hi <= |entries|
    requires forall i :: 0 <= i < lo ==> entries[i].id < id
    requires forall i :: hi <= i < |entries| ==> entries[i].id >= id
    ensures var at := LowerBound(entries, id, lo, hi);
            && (forall i :: 0 <= i < at ==> entries[i].id < id)
            && (forall i :: at <= i < |entries| ==> entries[i].id >= id)
    decreases hi - lo
  {
    if lo < hi {
      var mid := (lo + hi) / 2;
      Below(entries, id, mid);
      if entries[mid].id < id {
        LowerBoundFinds(entries, id, mid + 1, hi);
      } else {
        LowerBoundFinds(entries, id, lo, mid);
      }
    }
  }

  lemma Below(entries: seq<Entry>, id: nat, mid: nat)
    requires IdsAscending(entries) && mid < |entries|
    ensures entries[mid].id < id ==> forall i :: 0 <= i <= mid ==> entries[i].id < id
    ensures entries[mid].id >= id ==> forall i :: mid <= i < |entries| ==> entries[i].id >= id
  {
  }

  lemma FindIsExact(p: Pak, id: nat)
    requires IdsAscending(p.entries)
    ensures Find(p, id).Some? <==> exists i :: 0 <= i < |p.entries| && p.entries[i].id == id
    ensures forall i :: 0 <= i < |p.entries| && p.entries[i].id == id ==> Find(p, id) == Some(p.entries[i])
  {
    LowerBoundFinds(p.entries, id, 0, |p.entries|);
  }

  /// Every pak block of a built file matches its checksum.
  lemma BlocksMatch(h: Hashes, p: Pak, sealed: Bytes, region: Bytes, toc: Bytes, b: nat)
    requires |sealed| == HEADER_BLOCK && p.file == sealed + region + toc && p.dataEnd == HEADER_BLOCK + |region|
    requires p.hashes == BlockHashes(h, region) && b < |p.hashes|
    ensures BlockMatches(h, p, b)
  {
    Split(sealed, region, toc);
    ChunkAt(region, PAK_BLOCK, b);
    var from, length := b * PAK_BLOCK, PieceLength(|region|, PAK_BLOCK, b);
    assert p.file[HEADER_BLOCK..HEADER_BLOCK + |region|][from..from + length]
        == p.file[HEADER_BLOCK + from..HEADER_BLOCK + from + length];
  }

  lemma FetchSucceeds(h: Hashes, p: Pak, start: nat, size: nat)
    requires size > 0 && HEADER_BLOCK <= start && start + size <= p.dataEnd <= |p.file|
    requires |p.hashes| == PakBlockCount(p.dataEnd - HEADER_BLOCK)
    requires forall b :: 0 <= b < |p.hashes| ==> BlockMatches(h, p, b)
    ensures Fetch(h, p, start, size) == Some(p.file[start..start + size])
  {
    var n, x := p.dataEnd - HEADER_BLOCK, start + size - 1 - HEADER_BLOCK;
    assert x / PAK_BLOCK < Pieces(n, PAK_BLOCK);
  }

  ghost predicate AllMatch(h: Hashes, p: Pak) {
    && HEADER_BLOCK <= p.dataEnd <= |p.file| && |p.hashes| == PakBlockCount(p.dataEnd - HEADER_BLOCK)
    && forall b :: 0 <= b < |p.hashes| ==> BlockMatches(h, p, b)
  }

  /// The entry tells the truth about an asset in the file.
  ghost predicate Describes(p: Pak, e: Entry, a: Asset) {
    && HEADER_BLOCK <= e.offset && e.offset + |Stored(a)| <= p.dataEnd <= |p.file|
    && p.file[e.offset..e.offset + |Stored(a)|] == Stored(a)
    && e.rawSize == |a.cooked| && e.codec == a.codec && e.blockCount == |a.blocks|
    && e.firstBlock + e.blockCount <= |p.sizes|
    && p.sizes[e.firstBlock..e.firstBlock + e.blockCount] == Lengths(a.blocks)
  }

  lemma SizeListed(p: Pak, e: Entry, a: Asset, k: nat)
    requires Describes(p, e, a) && k < |a.blocks|
    ensures p.sizes[e.firstBlock + k] == |a.blocks[k]|
  {
    assert p.sizes[e.firstBlock + k] == p.sizes[e.firstBlock..e.firstBlock + e.blockCount][k];
  }

  lemma PartOfSlice(file: Bytes, offset: nat, blocks: seq<Bytes>, k: nat)
    requires offset + |Join(blocks)| <= |file| && file[offset..offset + |Join(blocks)|] == Join(blocks) && k < |blocks|
    ensures Start(blocks, k) + |blocks[k]| <= |Join(blocks)|
    ensures file[offset + Start(blocks, k)..offset + Start(blocks, k) + |blocks[k]|] == blocks[k]
  {
    hide *;
    JoinPart(blocks, k);
    SliceOfSlice(file, offset, Join(blocks), Start(blocks, k), blocks[k]);
  }

  lemma SliceOfSlice(whole: Bytes, at: nat, part: Bytes, from: nat, piece: Bytes)
    requires at + |part| <= |whole| && whole[at..at + |part|] == part
    requires from + |piece| <= |part| && part[from..from + |piece|] == piece
    ensures whole[at + from..at + from + |piece|] == piece
  {
    assert forall k :: 0 <= k < |part| ==> part[k] == whole[at + k];
    assert forall k :: 0 <= k < |piece| ==> piece[k] == part[from + k];
  }

  lemma BlockDecodes(z: Zstd, a: Asset, k: nat)
    requires AssetOk(z, a) && k < |a.blocks|
    ensures |a.blocks| == |Chunks(a.cooked, ASSET_BLOCK)| && 0 < |a.blocks[k]|
    ensures DecodedBlock(z, a.codec, a.blocks[k], PieceLength(|a.cooked|, ASSET_BLOCK, k))
            == Some(Chunks(a.cooked, ASSET_BLOCK)[k])
  {
    assert BlockOk(z, a, k);
  }

  lemma DecodeStep(z: Zstd, h: Hashes, p: Pak, e: Entry, k: nat, rel: nat, block: Bytes, piece: Bytes, rest: Bytes)
    requires AllMatch(h, p) && k < e.blockCount && e.firstBlock + k < |p.sizes|
             && p.sizes[e.firstBlock + k] == |block| > 0
    requires HEADER_BLOCK <= e.offset && e.offset + rel + |block| <= p.dataEnd
    requires p.file[e.offset + rel..e.offset + rel + |block|] == block
    requires DecodedBlock(z, e.codec, block, PieceLength(e.rawSize, ASSET_BLOCK, k)) == Some(piece)
    requires DecodeFrom(z, h, p, e, k + 1, rel + |block|) == Some(rest)
    ensures DecodeFrom(z, h, p, e, k, rel) == Some(piece + rest)
  {
    FetchSucceeds(h, p, e.offset + rel, |block|);
    hide Fetch, BlockMatches, DecodedBlock, PakBlockCount, PieceLength;
  }

  /// Decoding the blocks from the k-th on gives the rest of the asset.
  lemma {:induction false} DecodesRest(z: Zstd, h: Hashes, p: Pak, e: Entry, a: Asset, k: nat)
    requires AssetOk(z, a) && AllMatch(h, p) && Describes(p, e, a) && k <= |a.blocks|
    ensures k <= |Chunks(a.cooked, ASSET_BLOCK)|
    ensures DecodeFrom(z, h, p, e, k, Start(a.blocks, k)) == Some(Join(Chunks(a.cooked, ASSET_BLOCK)[k..]))
    decreases |a.blocks| - k
  {
    hide DecodedBlock, DecodeFrom, Join, Start, Chunks, Lengths, BlockOk, AllMatch, Stored;
    if k == |a.blocks| {
      NothingLeft(z, h, p, e, k, Start(a.blocks, k), Chunks(a.cooked, ASSET_BLOCK));
    } else {
      BlockDecodes(z, a, k);
      SizeListed(p, e, a, k);
      BlockInFile(p, e, a, k);
      DecodesRest(z, h, p, e, a, k + 1);
      DecodesOneMore(z, h, p, e, k, Start(a.blocks, k), a.blocks[k], Chunks(a.cooked, ASSET_BLOCK));
    }
  }

  lemma DecodesOneMore(z: Zstd, h: Hashes, p: Pak, e: Entry, k: nat, rel: nat, block: Bytes, pieces: seq<Bytes>)
    requires AllMatch(h, p) && k < e.blockCount && e.firstBlock + k < |p.sizes|
             && p.sizes[e.firstBlock + k] == |block| > 0
    requires HEADER_BLOCK <= e.offset && e.offset + rel + |block| <= p.dataEnd
    requires p.file[e.offset + rel..e.offset + rel + |block|] == block && k < |pieces|
    requires DecodedBlock(z, e.codec, block, PieceLength(e.rawSize, ASSET_BLOCK, k)) == Some(pieces[k])
    requires DecodeFrom(z, h, p, e, k + 1, rel + |block|) == Some(Join(pieces[k + 1..]))
    ensures DecodeFrom(z, h, p, e, k, rel) == Some(Join(pieces[k..]))
  {
    JoinFirst(pieces, k);
    hide DecodeFrom, DecodedBlock, Join, AllMatch;
    DecodeStep(z, h, p, e, k, rel, block, pieces[k], Join(pieces[k + 1..]));
  }

  lemma BlockInFile(p: Pak, e: Entry, a: Asset, k: nat)
    requires Describes(p, e, a) && k < |a.blocks|
    ensures var rel, n := Start(a.blocks, k), |a.blocks[k]|;
            && HEADER_BLOCK <= e.offset && e.offset + rel + n <= p.dataEnd <= |p.file|
            && p.file[e.offset + rel..e.offset + rel + n] == a.blocks[k]
            && e.rawSize == |a.cooked| && e.codec == a.codec && k < e.blockCount == |a.blocks|
            && e.firstBlock + k < |p.sizes| && Start(a.blocks, k + 1) == rel + n
  {
    PartOfSlice(p.file, e.offset, a.blocks, k);
  }

  lemma NothingLeft(z: Zstd, h: Hashes, p: Pak, e: Entry, k: nat, rel: nat, pieces: seq<Bytes>)
    requires k == e.blockCount == |pieces| && p.dataEnd <= |p.file|
    ensures DecodeFrom(z, h, p, e, k, rel) == Some(Join(pieces[k..]))
  {
  }

  lemma JoinFirst(pieces: seq<Bytes>, k: nat)
    requires k < |pieces|
    ensures Join(pieces[k..]) == pieces[k] + Join(pieces[k + 1..])
  {
    JoinConcat([pieces[k]], pieces[k + 1..]);
    assert pieces[k..] == [pieces[k]] + pieces[k + 1..];
    assert Join([pieces[k]]) == [] + pieces[k];
  }

  lemma OpenedDescribes(z: Zstd, h: Hashes, o: PakOptions, assets: Assets, blobOrder: seq<AssetId>, i: nat)
    requires Writable(z, h, o, assets, blobOrder) && i < |InOrder(assets.Keys)|
    ensures var p, id := Opened(h, o, assets, blobOrder), InOrder(assets.Keys)[i];
            id in assets && Describes(p, p.entries[i], assets[id]) && p.entries[i].id == id
            && p.entries[i].hashLow == h.hashLow(assets[id].cooked)
            && p.entries[i].hashHigh == h.hashHigh(assets[id].cooked)
  {
    hide Sealed, TocBytes, BlockHashes, TocSize, Join, Blobs, EntryOf, Entries, InOrder, HashesFit, AssetsOk,
      SizeTable, Lengths,
         Describes, Stored, Placed;
    var plan, order := PlanOf(h, o, assets, blobOrder), InOrder(assets.Keys);
    assert order[i] in order;
    WritableIsPlaced(z, h, o, assets, blobOrder);
    EntryFields(z, h, assets, blobOrder, plan.region, i);
    SizesPlaced(assets, order, i);
    RegionInFile(h, o, assets, blobOrder);
    DescribesFrom(Opened(h, o, assets, blobOrder), plan.entries[i], assets[order[i]], plan.region);
  }

  lemma RegionInFile(h: Hashes, o: PakOptions, assets: Assets, blobOrder: seq<AssetId>)
    requires Orders(assets, blobOrder)
    ensures var p, region := Opened(h, o, assets, blobOrder), PlanOf(h, o, assets, blobOrder).region;
            p.dataEnd == HEADER_BLOCK + |region| <= |p.file| && p.file[HEADER_BLOCK..HEADER_BLOCK + |region|] == region
  {
    hide Sealed, TocBytes, BlockHashes, TocSize, Join, Blobs, Entries, InOrder, SizeTable;
    var plan := PlanOf(h, o, assets, blobOrder);
    SealedLength(h, plan.header);
    Split(Sealed(h, plan.header), plan.region, TocBytes(plan.entries, plan.sizes, plan.hashes));
  }

  lemma DescribesFrom(p: Pak, e: Entry, a: Asset, region: Bytes)
    requires p.dataEnd == HEADER_BLOCK + |region| <= |p.file| && p.file[HEADER_BLOCK..HEADER_BLOCK + |region|] == region
    requires HEADER_BLOCK <= e.offset && e.offset + e.compSize <= HEADER_BLOCK + |region| && e.compSize == |Stored(a)|
    requires region[e.offset - HEADER_BLOCK..e.offset - HEADER_BLOCK + e.compSize] == Stored(a)
    requires e.rawSize == |a.cooked| && e.codec == a.codec && e.blockCount == |a.blocks|
    requires e.firstBlock + e.blockCount <= |p.sizes|
    requires p.sizes[e.firstBlock..e.firstBlock + e.blockCount] == Lengths(a.blocks)
    ensures Describes(p, e, a)
  {
    hide Stored, Lengths;
    SliceOfSlice(p.file, HEADER_BLOCK, region, e.offset - HEADER_BLOCK, Stored(a));
  }

  lemma OpenedMatches(h: Hashes, o: PakOptions, assets: Assets, blobOrder: seq<AssetId>)
    requires Orders(assets, blobOrder)
    ensures AllMatch(h, Opened(h, o, assets, blobOrder))
  {
    hide Sealed, TocBytes, BlockMatches;
    var plan, p := PlanOf(h, o, assets, blobOrder), Opened(h, o, assets, blobOrder);
    SealedLength(h, plan.header);
    ChunkCount(plan.region, PAK_BLOCK);
    forall b | 0 <= b < |p.hashes| ensures BlockMatches(h, p, b) {
      BlocksMatch(h, p, Sealed(h, plan.header), plan.region, TocBytes(plan.entries, plan.sizes, plan.hashes), b);
    }
  }

  lemma OpenedIdsAscend(z: Zstd, h: Hashes, o: PakOptions, assets: Assets, blobOrder: seq<AssetId>)
    requires Orders(assets, blobOrder)
    ensures IdsAscending(Opened(h, o, assets, blobOrder).entries)
    ensures |Opened(h, o, assets, blobOrder).entries| == |InOrder(assets.Keys)|
    ensures forall i :: 0 <= i < |InOrder(assets.Keys)| ==>
              Opened(h, o, assets, blobOrder).entries[i].id == InOrder(assets.Keys)[i]
  {
    hide Sealed, TocBytes, BlockHashes, Join;
    InOrderAscends(assets.Keys);
  }

  /// The round trip: opening the pak of any assets added, with the blobs in any order, and reading an
  /// id gives exactly the bytes added under it, or NotFound when none were.
  lemma WhatIsWrittenIsRead(z: Zstd, h: Hashes, o: PakOptions, assets: Assets, blobOrder: seq<AssetId>, id: AssetId)
    requires Writable(z, h, o, assets, blobOrder)
    ensures var result := Parse(h, Build(h, o, assets, blobOrder), Some(o.platform));
            result.Ok? && result.value.dataEnd <= |result.value.file|
            && Read(z, h, result.value, id) == if id in assets then Ok(assets[id].cooked) else Err(NotFound)
  {
    hide PlanOf, DecodeFrom, Parse, Build;
    var p := Opened(h, o, assets, blobOrder);
    OpensAsWritten(z, h, o, assets, blobOrder, Some(o.platform));
    OpenedMatches(h, o, assets, blobOrder);
    OpenedIdsAscend(z, h, o, assets, blobOrder);
    FindIsExact(p, id);
    if id in assets {
      assert id in InOrder(assets.Keys);
      var i :| 0 <= i < |InOrder(assets.Keys)| && InOrder(assets.Keys)[i] == id;
      OpenedDescribes(z, h, o, assets, blobOrder, i);
      assert AssetOk(z, assets[id]);
      DecodesRest(z, h, p, p.entries[i], assets[id], 0);
      JoinChunks(assets[id].cooked, ASSET_BLOCK);
      assert Chunks(assets[id].cooked, ASSET_BLOCK)[0..] == Chunks(assets[id].cooked, ASSET_BLOCK);
    } else {
      assert forall i :: 0 <= i < |InOrder(assets.Keys)| ==> InOrder(assets.Keys)[i] in InOrder(assets.Keys);
    }
  }

  /// Whatever sequence of adds a writer accepted, its pak can be built and reads back.
  lemma AddedIsRead(w: HpakWriter, h: Hashes, o: PakOptions, blobOrder: seq<AssetId>, id: AssetId)
    requires w.Valid() && HashesFit(h) && OptionsOk(o) && Orders(w.m_assets, blobOrder)
    ensures var result := Parse(h, Build(h, o, w.m_assets, blobOrder), Some(o.platform));
            result.Ok? && result.value.dataEnd <= |result.value.file|
            && Read(w.m_zstd, h, result.value, id)
               == if id in w.m_assets then Ok(w.m_assets[id].cooked) else Err(NotFound)
  {
    AddsKeepPlan(h, o, w, blobOrder);
    WhatIsWrittenIsRead(w.m_zstd, h, o, w.m_assets, blobOrder, id);
  }

  // -- What opening promises of any file -----------------------------------------------------

  lemma {:induction false} CheckedIdsAscend(entries: seq<Entry>, i: nat, previous: nat, nextBlock: nat,
                                            sizes: seq<nat>, dataEnd: nat)
    requires i <= |entries| && CheckEntries(entries, i, previous, nextBlock, sizes, dataEnd).Some?
    ensures forall k :: i <= k < |entries| ==> entries[k].id > previous
    ensures forall j, k :: i <= j < k < |entries| ==> entries[j].id < entries[k].id
    decreases |entries| - i
  {
    if i < |entries| {
      CheckedIdsAscend(entries, i + 1, entries[i].id, nextBlock + entries[i].blockCount, sizes, dataEnd);
    }
  }

  /// A pak that opened, whoever wrote it, has ascending ids, and its search is exact.
  lemma ParsedIdsAscend(h: Hashes, file: Bytes, platform: Option<nat>)
    requires Parse(h, file, platform).Ok?
    ensures IdsAscending(Parse(h, file, platform).value.entries)
    ensures Parse(h, file, platform).value.dataEnd <= |Parse(h, file, platform).value.file|
  {
    var p := Parse(h, file, platform).value;
    CheckedIdsAscend(p.entries, 0, 0, 0, p.sizes, p.dataEnd);
  }

  /// The header of a built pak carries the writer's options and the counts of what was added.
  lemma HeaderSays(z: Zstd, h: Hashes, o: PakOptions, assets: Assets, blobOrder: seq<AssetId>)
    requires Writable(z, h, o, assets, blobOrder)
    ensures |Build(h, o, assets, blobOrder)| >= HEADER_BLOCK
    ensures var header := DecodeHeader(Build(h, o, assets, blobOrder)[..HEADER_BLOCK]);
      && header.platform == o.platform && header.contentBuild == o.contentBuild && header.group == o.group
      && header.language == o.language && header.tier == o.tier
      && header.assetCount == |blobOrder| && header.assetBlockCount == BlockTotal(assets, blobOrder)
      && header.tocOffset == HEADER_BLOCK + BlobBytes(assets, blobOrder)
  {
    hide DecodeHeader, Sealed, HeaderSealed, LayoutOk, Join, Blobs, SizeTable, Entries, BlockHashes, TocBytes, TocSize,
      BlobBytes, BlockTotal, InOrder, Placed;
    HeaderPasses(z, h, o, assets, blobOrder);
    PlanCounts(h, o, assets, blobOrder);
    SealedFirst(Sealed(h, PlanOf(h, o, assets, blobOrder).header), PlanOf(h, o, assets, blobOrder).region,
                TocBytes(PlanOf(h, o, assets, blobOrder).entries, PlanOf(h, o, assets, blobOrder).sizes,
                         PlanOf(h, o, assets, blobOrder).hashes));
  }

  lemma SealedFirst(sealed: Bytes, region: Bytes, toc: Bytes)
    ensures (sealed + region + toc)[..|sealed|] == sealed
  {
  }

  /// The counts of the header are those of the assets, in whatever order their blobs are.
  lemma PlanCounts(h: Hashes, o: PakOptions, assets: Assets, blobOrder: seq<AssetId>)
    requires Orders(assets, blobOrder)
    ensures var header := PlanOf(h, o, assets, blobOrder).header;
      && header.assetCount == |blobOrder| && header.assetBlockCount == BlockTotal(assets, blobOrder)
      && header.tocOffset == HEADER_BLOCK + BlobBytes(assets, blobOrder)
  {
    hide Join, Blobs, SizeTable, BlockHashes, TocBytes, BlobBytes, BlockTotal, InOrder, Entries;
    var order := InOrder(assets.Keys);
    InOrderAscends(assets.Keys);
    SumsAgree(assets, blobOrder, order);
    TotalsMatch(assets, blobOrder);
    TotalsMatch(assets, order);
  }
}
