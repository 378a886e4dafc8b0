/// Writing a pak (engine/assetpipe/src/hpak_writer.cpp): coding of assets, layout of the blobs,
/// checksums of the pak blocks and the table of contents. An asset is known by its id alone; zstd and
/// the hashes are parameters.
module PakWriter {
  import opened ByteStrings
  import opened Naturals
  import opened Options
  import opened OrderedSets
  import opened PakFormat
  import opened Sums

  /// A compressor with what the reader asks of a frame: its declared size, where it ends, its content.
  datatype Zstd = Zstd(compress: Bytes -> Bytes, declared: Bytes -> Option<nat>, frameSize: Bytes -> Option<nat>,
                       decompress: Bytes -> Option<Bytes>)

  predicate Restores(z: Zstd, b: Bytes) {
    var c := z.compress(b);
    && 0 < |c| <= MAX_STORED_BLOCK && z.declared(c) == Some(|b|) && z.frameSize(c) == Some(|c|)
    && z.decompress(c) == Some(b)
  }

  ghost predicate Lawful(z: Zstd) {
    forall b: Bytes :: 0 < |b| <= ASSET_BLOCK ==> Restores(z, b)
  }

  datatype Hashes = Hashes(hash64: Bytes -> nat, hashLow: Bytes -> nat, hashHigh: Bytes -> nat)

  ghost predicate HashesFit(h: Hashes) {
    forall b: Bytes :: h.hash64(b) < U64 && h.hashLow(b) < U64 && h.hashHigh(b) < U64
  }

  type AssetId = nat

  const CODEC_NONE: nat := 0
  const CODEC_ZSTD: nat := 1

  /// A cooked asset and the blocks it is stored as.
  datatype Asset = Asset(cooked: Bytes, codec: nat, blocks: seq<Bytes>)

  type Assets = map<AssetId, Asset>

  // -- Coding --------------------------------------------------------------------------------

  function Compressed(z: Zstd, pieces: seq<Bytes>): (c: seq<Bytes>)
    ensures |c| == |pieces| && forall k :: 0 <= k < |c| ==> c[k] == z.compress(pieces[k])
  {
    seq(|pieces|, k requires 0 <= k < |pieces| => z.compress(pieces[k]))
  }

  /// Each 256 KiB piece is one frame, unless the frames together are no smaller than the asset.
  function StoreAsset(z: Zstd, cooked: Bytes): Asset {
    var pieces := Chunks(cooked, ASSET_BLOCK);
    var frames := Compressed(z, pieces);
    if cooked == [] || |Join(frames)| >= |cooked| then Asset(cooked, CODEC_NONE, pieces)
    else Asset(cooked, CODEC_ZSTD, frames)
  }

  /// What storing an asset guarantees its reader.
  ghost predicate AssetOk(z: Zstd, a: Asset) {
    && |a.cooked| <= MAX_ASSET
    && |a.blocks| == |Chunks(a.cooked, ASSET_BLOCK)| == AssetBlockCount(|a.cooked|)
    && (a.codec == CODEC_NONE || a.codec == CODEC_ZSTD)
    && forall k :: 0 <= k < |a.blocks| ==> BlockOk(z, a, k)
  }

  ghost predicate BlockOk(z: Zstd, a: Asset, k: nat)
    requires k < |a.blocks| == |Chunks(a.cooked, ASSET_BLOCK)|
  {
    var piece := Chunks(a.cooked, ASSET_BLOCK)[k];
    && |piece| == PieceLength(|a.cooked|, ASSET_BLOCK, k)
    && 0 < |a.blocks[k]| <= MAX_STORED_BLOCK
    && if a.codec == CODEC_NONE then a.blocks[k] == piece else a.blocks[k] == z.compress(piece) && Restores(z, piece)
  }

  lemma StoreAssetOk(z: Zstd, cooked: Bytes)
    requires Lawful(z) && |cooked| <= MAX_ASSET
    ensures AssetOk(z, StoreAsset(z, cooked))
    ensures StoreAsset(z, cooked).cooked == cooked && |Join(StoreAsset(z, cooked).blocks)| <= |cooked|
  {
    var a := StoreAsset(z, cooked);
    ChunkCount(cooked, ASSET_BLOCK);
    JoinChunks(cooked, ASSET_BLOCK);
    forall k | 0 <= k < |a.blocks| ensures BlockOk(z, a, k) {
      ChunkAt(cooked, ASSET_BLOCK, k);
      assert Restores(z, Chunks(cooked, ASSET_BLOCK)[k]);
    }
  }

  // -- Layout --------------------------------------------------------------------------------

  function AlignUp(n: nat): nat {
    Pieces(n, ALIGNMENT) * ALIGNMENT
  }

  lemma AlignUpBounds(n: nat)
    ensures n <= AlignUp(n) < n + ALIGNMENT && AlignUp(n) % ALIGNMENT == 0
  {
    assert n == n / ALIGNMENT * ALIGNMENT + n % ALIGNMENT;
    DivisionIsUnique(AlignUp(n), ALIGNMENT, Pieces(n, ALIGNMENT), 0);
  }

  function Stored(a: Asset): Bytes {
    Join(a.blocks)
  }

  /// A blob with its padding.
  function Blob(a: Asset): (b: Bytes)
    ensures |b| == AlignUp(|Stored(a)|)
  {
    AlignUpBounds(|Stored(a)|);
    Stored(a) + Zeros(AlignUp(|Stored(a)|) - |Stored(a)|)
  }

  /// The blobs in file order.
  function Blobs(assets: Assets, order: seq<AssetId>): (b: seq<Bytes>)
    requires forall id :: id in order ==> id in assets
    ensures |b| == |order| && forall i :: 0 <= i < |b| ==> b[i] == Blob(assets[order[i]])
  {
    seq(|order|, i requires 0 <= i < |order| => Blob(assets[order[i]]))
  }

  ghost predicate Orders(assets: Assets, order: seq<AssetId>) {
    NoRepeats(order) && forall id :: id in order <==> id in assets
  }

  function IndexOf(order: seq<AssetId>, id: AssetId): (i: nat)
    requires id in order
    ensures i < |order| && order[i] == id
  {
    if order[0] == id then 0 else 1 + IndexOf(order[1..], id)
  }

  function OffsetOf(assets: Assets, order: seq<AssetId>, id: AssetId): nat
    requires (forall x :: x in order ==> x in assets) && id in order
  {
    HEADER_BLOCK + Start(Blobs(assets, order), IndexOf(order, id))
  }

  lemma {:induction false} StartsAligned(blobs: seq<Bytes>, i: nat)
    requires i <= |blobs| && forall k :: 0 <= k < |blobs| ==> |blobs[k]| % ALIGNMENT == 0
    ensures Start(blobs, i) % ALIGNMENT == 0
  {
    if i > 0 { StartsAligned(blobs, i - 1); }
  }

  /// Every stored asset lies at its offset in the file's blob region, aligned.
  lemma BlobPlaced(assets: Assets, order: seq<AssetId>, id: AssetId)
    requires Orders(assets, order) && id in assets
    ensures var region, at := Join(Blobs(assets, order)), OffsetOf(assets, order, id) - HEADER_BLOCK;
            at % ALIGNMENT == 0 && at + |Stored(assets[id])| <= |region|
            && region[at..at + |Stored(assets[id])|] == Stored(assets[id])
  {
    hide Join, Start, Blob, AlignUp, Stored, Blobs, IndexOf;
    StoredIsPrefix(assets[id]);
    var blobs, i := Blobs(assets, order), IndexOf(order, id);
    JoinPart(blobs, i);
    BlobsAligned(assets, order);
    StartsAligned(blobs, i);
    PrefixOfPart(Join(blobs), Start(blobs, i), blobs[i], Stored(assets[id]));
  }

  lemma StoredIsPrefix(a: Asset)
    ensures Stored(a) <= Blob(a)
  {
    AlignUpBounds(|Stored(a)|);
  }

  lemma BlobsAligned(assets: Assets, order: seq<AssetId>)
    requires forall id :: id in order ==> id in assets
    ensures forall k :: 0 <= k < |order| ==> |Blobs(assets, order)[k]| % ALIGNMENT == 0
  {
    forall k | 0 <= k < |order| ensures |Blobs(assets, order)[k]| % ALIGNMENT == 0 {
      AlignUpBounds(|Stored(assets[order[k]])|);
    }
  }

  lemma PrefixOfPart(whole: Bytes, at: nat, part: Bytes, prefix: Bytes)
    requires at + |part| <= |whole| && whole[at..at + |part|] == part && prefix <= part
    ensures whole[at..at + |prefix|] == prefix
  {
    assert whole[at..at + |part|][..|prefix|] == whole[at..at + |prefix|];
  }

  // -- Pak block checksums -------------------------------------------------------------------

  function HashAll(h: Hashes, pieces: seq<Bytes>): (r: seq<nat>)
    ensures |r| == |pieces| && forall i :: 0 <= i < |r| ==> r[i] == h.hash64(pieces[i])
  {
    seq(|pieces|, i requires 0 <= i < |pieces| => h.hash64(pieces[i]))
  }

  /// The checksum of each 64 KiB block of the blob region.
  function BlockHashes(h: Hashes, region: Bytes): seq<nat> {
    HashAll(h, Chunks(region, PAK_BLOCK))
  }

  /// The hasher that is fed blob by blob and padding by padding.
  class BlockHasher {
    const m_hashes: Hashes
    /// What the running hash was given since its last reset.
    var m_pending: Bytes
    var m_fill: nat
    var m_blockHashes: seq<nat>
    ghost var fed: Bytes

    ghost predicate Valid()
      reads this
    {
      var full := |fed| - m_fill;
      && m_fill == |m_pending| < PAK_BLOCK && m_fill <= |fed| && full % PAK_BLOCK == 0
      && fed[full..] == m_pending && m_blockHashes == HashAll(m_hashes, Chunks(fed[..full], PAK_BLOCK))
    }

    constructor (hashes: Hashes)
      ensures Valid() && m_hashes == hashes && fed == []
    {
      m_hashes, m_pending, m_fill, m_blockHashes, fed := hashes, [], 0, [], [];
    }

    method Feed(bytes: Bytes)
      requires Valid()
      modifies this
      ensures Valid() && fed == old(fed) + bytes
    {
      var at := 0;
      while at < |bytes|
        invariant at <= |bytes| && Valid() && fed == old(fed) + bytes[..at]
        decreases |bytes| - at
      {
        var take := if |bytes| - at < PAK_BLOCK - m_fill then |bytes| - at else PAK_BLOCK - m_fill;
        Take(bytes[at..at + take]);
        assert bytes[..at] + bytes[at..at + take] == bytes[..at + take];
        at := at + take;
      }
      assert bytes[..at] == bytes;
    }

    method Take(bytes: Bytes)
      requires Valid() && 0 < |bytes| <= PAK_BLOCK - m_fill
      modifies this
      ensures Valid() && fed == old(fed) + bytes
    {
      ghost var full := |fed| - m_fill;
      ghost var block := m_pending + bytes;
      assert fed + bytes == fed[..full] + block;
      m_pending := m_pending + bytes;
      m_fill := m_fill + |bytes|;
      fed := fed + bytes;
      assert fed[..full] == old(fed)[..full] && fed[full..] == block;
      if m_fill == PAK_BLOCK {
        ChunksConcat(fed[..full], block, PAK_BLOCK);
        assert Chunks(block, PAK_BLOCK) == [block];
        assert fed[..full] + block == fed;
        FullMore(full);
        m_blockHashes := m_blockHashes + [m_hashes.hash64(m_pending)];
        m_pending := [];
        m_fill := 0;
        assert fed[..|fed|] == fed;
      }
    }

    /// Closes the last, partial block.
    method Finish() returns (blockHashes: seq<nat>)
      requires Valid()
      ensures blockHashes == BlockHashes(m_hashes, fed)
    {
      ghost var full := |fed| - m_fill;
      ChunksConcat(fed[..full], m_pending, PAK_BLOCK);
      assert fed[..full] + m_pending == fed;
      blockHashes := m_blockHashes;
      if m_fill > 0 {
        assert Chunks(m_pending, PAK_BLOCK) == [m_pending];
        blockHashes := blockHashes + [m_hashes.hash64(m_pending)];
      }
    }
  }

  /// The padding is fed in pieces of at most 4 KiB of zeros.
  method FeedZeros(hasher: BlockHasher, count: nat)
    requires hasher.Valid()
    modifies hasher
    ensures hasher.Valid() && hasher.fed == old(hasher.fed) + Zeros(count)
  {
    var left := count;
    assert hasher.fed + Zeros(0) == hasher.fed;
    while left > 0
      invariant 0 <= left <= count && hasher.Valid() && hasher.fed == old(hasher.fed) + Zeros(count - left)
    {
      var take := if left < ALIGNMENT then left else ALIGNMENT;
      hasher.Feed(Zeros(take));
      assert Zeros(count - left) + Zeros(take) == Zeros(count - left + take);
      Assoc(old(hasher.fed), Zeros(count - left), Zeros(take));
      left := left - take;
    }
  }

  /// The loop over the blobs: each is fed with its padding.
  method HashBlobs(h: Hashes, assets: Assets, order: seq<AssetId>) returns (hashes: seq<nat>)
    requires forall id :: id in order ==> id in assets
    ensures hashes == BlockHashes(h, Join(Blobs(assets, order)))
  {
    var hasher := new BlockHasher(h);
    ghost var blobs := Blobs(assets, order);
    for i := 0 to |order|
      invariant hasher.Valid() && fresh(hasher) && hasher.fed == Join(blobs[..i])
    {
      var a := assets[order[i]];
      AlignUpBounds(|Stored(a)|);
      hasher.Feed(Stored(a));
      FeedZeros(hasher, AlignUp(|Stored(a)|) - |Stored(a)|);
      JoinOneMore(blobs, i, Stored(a), Zeros(AlignUp(|Stored(a)|) - |Stored(a)|));
    }
    assert blobs[..|order|] == blobs;
    hashes := hasher.Finish();
  }

  lemma JoinOneMore(parts: seq<Bytes>, i: nat, a: Bytes, b: Bytes)
    requires i < |parts| && parts[i] == a + b
    ensures Join(parts[..i + 1]) == (Join(parts[..i]) + a) + b
  {
    assert parts[..i + 1][..i] == parts[..i];
    Assoc(Join(parts[..i]), a, b);
  }

  lemma FullMore(full: nat)
    requires full % PAK_BLOCK == 0
    ensures (full + PAK_BLOCK) % PAK_BLOCK == 0
  {
  }

  // -- Sizes and limits ----------------------------------------------------------------------

  function AlignedSizes(sizes: seq<nat>): (r: seq<nat>)
    ensures |r| == |sizes| && forall i :: 0 <= i < |r| ==> r[i] == AlignUp(sizes[i])
  {
    seq(|sizes|, i requires 0 <= i < |sizes| => AlignUp(sizes[i]))
  }

  function FileSize(blobBytes: nat, assets: nat, assetBlocks: nat): nat {
    HEADER_BLOCK + blobBytes + TocSize(assets, assetBlocks, PakBlockCount(blobBytes))
  }

  datatype Layout = Layout(blobOffsets: seq<nat>, dataEnd: nat, tocSize: nat, fileSize: nat, pakBlockCount: nat)

  /// The planned layout: exactly the files within the 2 GiB limit get one.
  method PlanLayout(blobSizes: seq<nat>, assetBlocks: nat) returns (layout: Option<Layout>)
    ensures layout.Some? <==>
              |blobSizes| < U32 && assetBlocks < U32
              && FileSize(Sum(AlignedSizes(blobSizes)), |blobSizes|, assetBlocks) <= MAX_PAK
    ensures layout.Some? ==>
              var l := layout.value;
              && |l.blobOffsets| == |blobSizes|
              && (forall i :: 0 <= i < |blobSizes| ==>
                    l.blobOffsets[i] == HEADER_BLOCK + Sum(AlignedSizes(blobSizes)[..i]))
              && l.dataEnd == HEADER_BLOCK + Sum(AlignedSizes(blobSizes))
              && l.pakBlockCount == PakBlockCount(l.dataEnd - HEADER_BLOCK)
              && l.tocSize == TocSize(|blobSizes|, assetBlocks, l.pakBlockCount)
              && l.fileSize == l.dataEnd + l.tocSize
  {
    hide PakBlockCount, AlignUp;
    if |blobSizes| >= U32 || assetBlocks >= U32 {
      return None;
    }
    ghost var aligned := AlignedSizes(blobSizes);
    var offsets: seq<nat> := [];
    var pos := HEADER_BLOCK;
    for i := 0 to |blobSizes|
      invariant pos == HEADER_BLOCK + Sum(aligned[..i]) && |offsets| == i
      invariant forall k :: 0 <= k < i ==> offsets[k] == HEADER_BLOCK + Sum(aligned[..k])
    {
      var size := blobSizes[i];
      NextOffset(blobSizes, i);
      if size > MAX_PAK {
        return None;
      }
      offsets := offsets + [pos];
      pos := pos + AlignUp(size);
      if pos > MAX_PAK {
        return None;
      }
    }
    assert aligned[..|blobSizes|] == aligned;
    var pakBlocks := PakBlockCount(pos - HEADER_BLOCK);
    var tocSize := TocSize(|blobSizes|, assetBlocks, pakBlocks);
    if pos + tocSize > MAX_PAK {
      return None;
    }
    return Some(Layout(offsets, pos, tocSize, pos + tocSize, pakBlocks));
  }

  lemma NextOffset(sizes: seq<nat>, i: nat)
    requires i < |sizes|
    ensures var aligned := AlignedSizes(sizes);
            Sum(aligned[..i + 1]) == Sum(aligned[..i]) + AlignUp(sizes[i]) <= Sum(aligned)
    ensures sizes[i] <= AlignUp(sizes[i])
  {
    var aligned := AlignedSizes(sizes);
    AlignUpBounds(sizes[i]);
    assert aligned[..i + 1][..i] == aligned[..i];
    PrefixAtMostAll(aligned, i + 1);
  }

  // -- Table of contents ---------------------------------------------------------------------

  function Lengths(blocks: seq<Bytes>): (r: seq<nat>)
    ensures |r| == |blocks| && forall k :: 0 <= k < |r| ==> r[k] == |blocks[k]|
  {
    seq(|blocks|, k requires 0 <= k < |blocks| => |blocks[k]|)
  }

  /// The stored sizes of all blocks, in entry order.
  function SizeTable(assets: Assets, order: seq<AssetId>): seq<nat>
    requires forall id :: id in order ==> id in assets
  {
    if order == [] then []
    else SizeTable(assets, order[..|order| - 1]) + Lengths(assets[order[|order| - 1]].blocks)
  }

  function EntryOf(h: Hashes, assets: Assets, blobOrder: seq<AssetId>, tocOrder: seq<AssetId>, i: nat): Entry
    requires (forall id :: id in blobOrder ==> id in assets) && (forall id :: id in tocOrder ==> id in assets)
    requires i < |tocOrder| && tocOrder[i] in blobOrder
  {
    var id := tocOrder[i];
    var a := assets[id];
    Entry(id, h.hashLow(a.cooked), h.hashHigh(a.cooked), OffsetOf(assets, blobOrder, id), |Stored(a)|, |a.cooked|,
          |SizeTable(assets, tocOrder[..i])|, |a.blocks|, a.codec, 0)
  }

  ghost function Entries(h: Hashes, assets: Assets, blobOrder: seq<AssetId>): (e: seq<Entry>)
    requires Orders(assets, blobOrder)
    ensures |e| == |InOrder(assets.Keys)|
    ensures forall i :: 0 <= i < |e| ==> e[i] == EntryOf(h, assets, blobOrder, InOrder(assets.Keys), i)
  {
    var order := InOrder(assets.Keys);
    seq(|order|, i requires 0 <= i < |order| => EntryOf(h, assets, blobOrder, order, i))
  }

  function Encoded(entries: seq<Entry>): (r: seq<Bytes>)
    ensures |r| == |entries| && forall i :: 0 <= i < |r| ==> r[i] == EncodeEntry(entries[i])
  {
    seq(|entries|, i requires 0 <= i < |entries| => EncodeEntry(entries[i]))
  }

  function Encodings(values: seq<nat>, width: nat): (r: seq<Bytes>)
    ensures |r| == |values| && forall i :: 0 <= i < |r| ==> r[i] == LittleEndian(values[i], width)
  {
    seq(|values|, i requires 0 <= i < |values| => LittleEndian(values[i], width))
  }

  function TocBytes(entries: seq<Entry>, sizes: seq<nat>, hashes: seq<nat>): Bytes {
    Join(Encoded(entries)) + Join(Encodings(sizes, SIZE_BYTES)) + Join(Encodings(hashes, HASH_BYTES))
  }

  // -- The file ------------------------------------------------------------------------------

  datatype PakOptions = PakOptions(platform: nat, contentBuild: nat, group: nat, language: nat, tier: nat)

  predicate OptionsOk(o: PakOptions) {
    1 <= o.platform <= 3 && o.contentBuild < U64 && o.group < U64 && o.language < U32 && o.tier <= MAX_TIER
  }

  /// The header block; its hash covers the fields before it.
  function Sealed(h: Hashes, header: Header): Bytes {
    HeaderLength(header);
    EncodeHeader(header.(headerHash := h.hash64(EncodeHeader(header)[..HASHED_BYTES])))
      + Zeros(HEADER_BLOCK - HEADER_BYTES)
  }

  /// The parts of a built pak.
  datatype Plan = Plan(header: Header, region: Bytes, entries: seq<Entry>, sizes: seq<nat>, hashes: seq<nat>)

  ghost function PlanOf(h: Hashes, o: PakOptions, assets: Assets, blobOrder: seq<AssetId>): Plan
    requires Orders(assets, blobOrder)
  {
    var region := Join(Blobs(assets, blobOrder));
    var entries := Entries(h, assets, blobOrder);
    var sizes := SizeTable(assets, InOrder(assets.Keys));
    var hashes := BlockHashes(h, region);
    var toc := TocBytes(entries, sizes, hashes);
    Plan(Header(MAGIC, 0, 0, o.platform, 0, o.contentBuild, o.group, o.language, o.tier, 0, HEADER_BLOCK + |region|,
                |toc|,
                |entries|, |sizes|, |hashes|, 0, h.hash64(toc), 0),
         region, entries, sizes, hashes)
  }

  function Written(h: Hashes, p: Plan): Bytes {
    Sealed(h, p.header) + p.region + TocBytes(p.entries, p.sizes, p.hashes)
  }

  /// The pak of these assets, with the blobs in this order.
  ghost function Build(h: Hashes, o: PakOptions, assets: Assets, blobOrder: seq<AssetId>): Bytes
    requires Orders(assets, blobOrder)
  {
    Written(h, PlanOf(h, o, assets, blobOrder))
  }

  // -- Lengths -------------------------------------------------------------------------------

  lemma {:induction false} UniformStart(parts: seq<Bytes>, width: nat, i: nat)
    requires i <= |parts| && forall k :: 0 <= k < |parts| ==> |parts[k]| == width
    ensures Start(parts, i) == i * width
  {
    if i > 0 { UniformStart(parts, width, i - 1); }
  }

  lemma TocLength(entries: seq<Entry>, sizes: seq<nat>, hashes: seq<nat>)
    ensures |Join(Encoded(entries))| == |entries| * ENTRY_BYTES
    ensures |Join(Encodings(sizes, SIZE_BYTES))| == |sizes| * SIZE_BYTES
    ensures |Join(Encodings(hashes, HASH_BYTES))| == |hashes| * HASH_BYTES
    ensures |TocBytes(entries, sizes, hashes)| == TocSize(|entries|, |sizes|, |hashes|)
  {
    forall i | 0 <= i < |entries| ensures |Encoded(entries)[i]| == ENTRY_BYTES { EntryStarts(entries[i]); }
    UniformStart(Encoded(entries), ENTRY_BYTES, |entries|);
    UniformStart(Encodings(sizes, SIZE_BYTES), SIZE_BYTES, |sizes|);
    UniformStart(Encodings(hashes, HASH_BYTES), HASH_BYTES, |hashes|);
    JoinLength(Encoded(entries));
    JoinLength(Encodings(sizes, SIZE_BYTES));
    JoinLength(Encodings(hashes, HASH_BYTES));
  }

  // -- Sums that do not depend on the order --------------------------------------------------

  function BlobBytes(assets: Assets, order: seq<AssetId>): nat
    requires forall id :: id in order ==> id in assets
  {
    if order == [] then 0
    else BlobBytes(assets, order[..|order| - 1]) + AlignUp(|Stored(assets[order[|order| - 1]])|)
  }

  function BlockTotal(assets: Assets, order: seq<AssetId>): nat
    requires forall id :: id in order ==> id in assets
  {
    if order == [] then 0 else BlockTotal(assets, order[..|order| - 1]) + |assets[order[|order| - 1]].blocks|
  }

  lemma WithoutLast(order: seq<AssetId>, i: nat)
    requires i < |order| - 1
    ensures var n := |order| - 1; var rest := order[..i] + order[i + 1..];
      |rest| == n && rest[n - 1] == order[n] && rest[..n - 1] == order[..n][..i] + order[..n][i + 1..]
  {
    var n := |order| - 1;
    var front, middle := order[..i], order[i + 1..n];
    assert order[..n][..i] == front && order[..n][i + 1..] == middle && order[i + 1..] == middle + [order[n]];
    assert order[..i] + order[i + 1..] == (front + middle) + [order[n]];
  }

  lemma {:induction false} TakeOut(assets: Assets, order: seq<AssetId>, i: nat)
    requires (forall id :: id in order ==> id in assets) && i < |order|
    ensures forall id :: id in order[..i] + order[i + 1..] ==> id in assets
    ensures BlobBytes(assets, order)
            == BlobBytes(assets, order[..i] + order[i + 1..]) + AlignUp(|Stored(assets[order[i]])|)
    ensures BlockTotal(assets, order) == BlockTotal(assets, order[..i] + order[i + 1..]) + |assets[order[i]].blocks|
    decreases |order|
  {
    hide AlignUp, Stored;
    var n := |order| - 1;
    var rest := order[..i] + order[i + 1..];
    if i < n {
      TakeOut(assets, order[..n], i);
      WithoutLast(order, i);
    } else {
      assert rest == order[..n];
    }
  }

  lemma {:induction false} SumsAgree(assets: Assets, a: seq<AssetId>, b: seq<AssetId>)
    requires NoRepeats(a) && NoRepeats(b) && (forall id :: id in a ==> id in assets)
             && (forall id :: id in b <==> id in a)
    ensures |a| == |b| && BlobBytes(assets, a) == BlobBytes(assets, b) && BlockTotal(assets, a) == BlockTotal(assets, b)
    decreases |a|
  {
    if a == [] {
      Distinct(b);
      assert Elements(b) == {};
    } else {
      var last := a[|a| - 1];
      assert last in b;
      var i := IndexOf(b, last);
      var rest := b[..i] + b[i + 1..];
      TakeOut(assets, b, i);
      forall id ensures id in rest <==> id in a[..|a| - 1] { WithoutOne(a, b, i, id); }
      SumsAgree(assets, a[..|a| - 1], rest);
    }
  }

  lemma WithoutOne(a: seq<AssetId>, b: seq<AssetId>, i: nat, id: AssetId)
    requires NoRepeats(a) && NoRepeats(b) && a != [] && i < |b| && b[i] == a[|a| - 1]
             && (forall x :: x in b <==> x in a)
    ensures NoRepeats(b[..i] + b[i + 1..])
    ensures id in b[..i] + b[i + 1..] <==> id in a[..|a| - 1]
  {
    assert id in a[..|a| - 1] <==> id in a && id != a[|a| - 1];
    assert id in b[..i] + b[i + 1..] <==> id in b && id != b[i];
  }

  lemma {:induction false} TotalsMatch(assets: Assets, order: seq<AssetId>)
    requires forall id :: id in order ==> id in assets
    ensures |Join(Blobs(assets, order))| == BlobBytes(assets, order)
    ensures |SizeTable(assets, order)| == BlockTotal(assets, order)
  {
    if order != [] {
      var front := order[..|order| - 1];
      TotalsMatch(assets, front);
      assert Blobs(assets, order)[..|front|] == Blobs(assets, front);
    }
  }

  lemma BuildLength(h: Hashes, o: PakOptions, assets: Assets, blobOrder: seq<AssetId>)
    requires Orders(assets, blobOrder)
    ensures |Build(h, o, assets, blobOrder)|
            == FileSize(BlobBytes(assets, blobOrder), |blobOrder|, BlockTotal(assets, blobOrder))
    ensures |InOrder(assets.Keys)| == |blobOrder|
  {
    var p := PlanOf(h, o, assets, blobOrder);
    var order := InOrder(assets.Keys);
    InOrderAscends(assets.Keys);
    SumsAgree(assets, blobOrder, order);
    TotalsMatch(assets, blobOrder);
    TotalsMatch(assets, order);
    TocLength(p.entries, p.sizes, p.hashes);
    ChunkCount(p.region, PAK_BLOCK);
    SealedLength(h, p.header);
  }

  lemma SealedLength(h: Hashes, header: Header)
    ensures |Sealed(h, header)| == HEADER_BLOCK
  {
    HeaderLength(header);
    HeaderLength(header.(headerHash := h.hash64(EncodeHeader(header)[..HASHED_BYTES])));
  }

  // -- The writer ----------------------------------------------------------------------------

  datatype AddError = InvalidId | AlreadyAdded | InvalidTier | AssetTooLarge | PakTooLarge

  /// The size of the pak with one more asset.
  function SizeWith(blobBytes: nat, assets: nat, assetBlocks: nat, a: Asset): nat {
    FileSize(blobBytes + AlignUp(|Stored(a)|), assets + 1, assetBlocks + |a.blocks|)
  }

  /// Why an asset is refused; `a` is the asset as it would be stored.
  function AddFailure(assets: Assets, order: seq<AssetId>, id: AssetId, a: Asset, tier: nat): Option<AddError>
    requires forall x :: x in order ==> x in assets
  {
    if id == 0 then Some(InvalidId)
    else if id in assets then Some(AlreadyAdded)
    else if tier > MAX_TIER then Some(InvalidTier)
    else if |a.cooked| > MAX_ASSET then Some(AssetTooLarge)
    else if SizeWith(BlobBytes(assets, order), |order|, BlockTotal(assets, order), a) > MAX_PAK then Some(PakTooLarge)
    else None
  }

  ghost predicate AssetsOk(z: Zstd, assets: Assets) {
    forall id {:trigger AssetOk(z, assets[id])} :: id in assets ==> 0 < id < U64 && AssetOk(z, assets[id])
  }

  lemma AssetsOkMore(z: Zstd, assets: Assets, id: AssetId, a: Asset)
    requires AssetsOk(z, assets) && 0 < id < U64 && AssetOk(z, a)
    ensures AssetsOk(z, assets[id := a])
  {
    var more := assets[id := a];
    forall x | x in more ensures 0 < x < U64 && AssetOk(z, more[x]) {
      if x != id { assert AssetOk(z, assets[x]); }
    }
  }

  /// The running totals are those of the assets added.
  ghost predicate Consistent(assets: Assets, ids: seq<AssetId>, blobBytes: nat, assetBlocks: nat, size: nat) {
    && Orders(assets, ids)
    && blobBytes == BlobBytes(assets, ids) && assetBlocks == BlockTotal(assets, ids)
    && size == FileSize(blobBytes, |ids|, assetBlocks) <= MAX_PAK
  }

  lemma ConsistentMore(assets: Assets, ids: seq<AssetId>, blobBytes: nat, assetBlocks: nat, size: nat, id: AssetId,
                       a: Asset)
    requires Consistent(assets, ids, blobBytes, assetBlocks, size) && id !in assets
    requires SizeWith(blobBytes, |ids|, assetBlocks, a) <= MAX_PAK
    ensures Consistent(assets[id := a], ids + [id], blobBytes + AlignUp(|Stored(a)|), assetBlocks + |a.blocks|,
                       SizeWith(blobBytes, |ids|, assetBlocks, a))
  {
    OneMore(assets, ids, id, a);
  }

  class HpakWriter {
    const m_zstd: Zstd
    var m_assets: Assets
    /// The ids in the order they were added.
    var m_ids: seq<AssetId>
    var m_blobBytes: nat
    var m_assetBlocks: nat
    var m_size: nat

    ghost predicate Valid()
      reads this
    {
      && Lawful(m_zstd) && AssetsOk(m_zstd, m_assets)
      && Consistent(m_assets, m_ids, m_blobBytes, m_assetBlocks, m_size)
    }

    constructor (zstd: Zstd)
      requires Lawful(zstd)
      ensures Valid() && m_zstd == zstd && m_assets == map[]
    {
      m_zstd, m_assets, m_ids, m_blobBytes, m_assetBlocks := zstd, map[], [], 0, 0;
      m_size := FileSize(0, 0, 0);
    }

    /// Compresses piece by piece and keeps the frames only when they are smaller together.
    method Store(cooked: Bytes) returns (a: Asset)
      requires |cooked| <= MAX_ASSET
      ensures a == StoreAsset(m_zstd, cooked)
    {
      var blocks := AssetBlockCount(|cooked|);
      ghost var pieces := Chunks(cooked, ASSET_BLOCK);
      ChunkCount(cooked, ASSET_BLOCK);
      var frames: seq<Bytes>, plain: seq<Bytes>, stored := [], [], 0;
      for k := 0 to blocks
        invariant plain == pieces[..k] && frames == Compressed(m_zstd, pieces[..k]) && stored == |Join(frames)|
      {
        var at := k * ASSET_BLOCK;
        ChunkAt(cooked, ASSET_BLOCK, k);
        var piece := cooked[at..at + PieceLength(|cooked|, ASSET_BLOCK, k)];
        CompressedMore(m_zstd, pieces, k);
        var frame := m_zstd.compress(piece);
        assert (frames + [frame])[..|frames|] == frames;
        frames, plain, stored := frames + [frame], plain + [piece], stored + |frame|;
      }
      assert pieces[..blocks] == pieces;
      a := if blocks == 0 || stored >= |cooked| then Asset(cooked, CODEC_NONE, plain)
        else Asset(cooked, CODEC_ZSTD, frames);
      assert blocks == 0 <==> cooked == [];
    }

    /// Adds an asset; a refused one changes nothing.
    method Add(id: AssetId, cooked: Bytes, tier: nat) returns (error: Option<AddError>)
      requires Valid() && id < U64
      modifies this
      ensures Valid()
      ensures error == old(AddFailure(m_assets, m_ids, id, StoreAsset(m_zstd, cooked), tier))
      ensures error.Some? ==> m_assets == old(m_assets) && m_ids == old(m_ids)
      ensures error.None? ==> m_assets == old(m_assets)[id := StoreAsset(m_zstd, cooked)] && m_ids == old(m_ids) + [id]
    {
      if id == 0 {
        return Some(InvalidId);
      }
      if id in m_assets {
        return Some(AlreadyAdded);
      }
      if tier > MAX_TIER {
        return Some(InvalidTier);
      }
      if |cooked| > MAX_ASSET {
        return Some(AssetTooLarge);
      }
      var a := Store(cooked);
      StoreAssetOk(m_zstd, cooked);
      error := Place(id, a);
    }

    method Place(id: AssetId, a: Asset) returns (error: Option<AddError>)
      requires Valid() && 0 < id < U64 && id !in m_assets && AssetOk(m_zstd, a)
      modifies this
      ensures Valid()
      ensures error ==
              if old(SizeWith(m_blobBytes, |m_ids|, m_assetBlocks, a)) > MAX_PAK then Some(PakTooLarge) else None
      ensures error.Some? ==> m_assets == old(m_assets) && m_ids == old(m_ids)
      ensures error.None? ==> m_assets == old(m_assets)[id := a] && m_ids == old(m_ids) + [id]
    {
      var size := SizeWith(m_blobBytes, |m_ids|, m_assetBlocks, a);
      if size > MAX_PAK {
        return Some(PakTooLarge);
      }
      ConsistentMore(m_assets, m_ids, m_blobBytes, m_assetBlocks, m_size, id, a);
      AssetsOkMore(m_zstd, m_assets, id, a);
      var blobBytes, assetBlocks := m_blobBytes + AlignUp(|Stored(a)|), m_assetBlocks + |a.blocks|;
      var assets, ids := m_assets[id := a], m_ids + [id];
      assert Consistent(assets, ids, blobBytes, assetBlocks, size);
      m_blobBytes, m_assetBlocks, m_size, m_assets, m_ids := blobBytes, assetBlocks, size, assets, ids;
      return None;
    }
  }

  lemma CompressedMore(z: Zstd, pieces: seq<Bytes>, k: nat)
    requires k < |pieces|
    ensures pieces[..k + 1] == pieces[..k] + [pieces[k]]
    ensures Compressed(z, pieces[..k + 1]) == Compressed(z, pieces[..k]) + [z.compress(pieces[k])]
  {
  }

  lemma OneMore(assets: Assets, order: seq<AssetId>, id: AssetId, a: Asset)
    requires Orders(assets, order) && id !in assets
    ensures var more := assets[id := a];
            Orders(more, order + [id])
            && BlobBytes(more, order + [id]) == BlobBytes(assets, order) + AlignUp(|Stored(a)|)
            && BlockTotal(more, order + [id]) == BlockTotal(assets, order) + |a.blocks|
  {
    SumsIgnoreOthers(assets, assets[id := a], order);
    assert (order + [id])[..|order|] == order;
  }

  lemma {:induction false} SumsIgnoreOthers(assets: Assets, more: Assets, order: seq<AssetId>)
    requires forall id :: id in order ==> id in assets && id in more && more[id] == assets[id]
    ensures BlobBytes(more, order) == BlobBytes(assets, order) && BlockTotal(more, order) == BlockTotal(assets, order)
  {
    if order != [] { SumsIgnoreOthers(assets, more, order[..|order| - 1]); }
  }

  /// Whatever was added, the running size is the size of the pak, and its layout can be planned.
  lemma AddsKeepPlan(h: Hashes, o: PakOptions, w: HpakWriter, blobOrder: seq<AssetId>)
    requires w.Valid() && Orders(w.m_assets, blobOrder)
    ensures w.m_size == |Build(h, o, w.m_assets, blobOrder)| <= MAX_PAK
  {
    SumsAgree(w.m_assets, w.m_ids, blobOrder);
    BuildLength(h, o, w.m_assets, blobOrder);
  }

  /// Frames are stored exactly when together they are smaller than the asset; otherwise its pieces are stored as they
  /// are.
  lemma FramesOnlyWhenSmaller(z: Zstd, cooked: Bytes)
    ensures var a, pieces := StoreAsset(z, cooked), Chunks(cooked, 262_144);
      && a.cooked == cooked && |a.blocks| == |pieces|
      && (a.codec == 1 <==> |Join(Compressed(z, pieces))| < |cooked|)
      && (a.codec == 0 <==> |Join(Compressed(z, pieces))| >= |cooked|)
      && forall k :: 0 <= k < |pieces| ==> a.blocks[k] == if a.codec == 1 then z.compress(pieces[k]) else pieces[k]
  {
  }

  /// The size that the writer expects is that of the pak built with the asset.
  lemma ExpectsBuilt(h: Hashes, o: PakOptions, assets: Assets, ids: seq<AssetId>, id: AssetId, a: Asset)
    requires Orders(assets, ids) && id !in assets
    ensures Orders(assets[id := a], ids + [id])
    ensures |Build(h, o, assets[id := a], ids + [id])|
            == SizeWith(BlobBytes(assets, ids), |ids|, BlockTotal(assets, ids), a)
  {
    hide Build, BlobBytes, BlockTotal, FileSize, Orders, AlignUp, InOrder;
    OneMore(assets, ids, id, a);
    BuildLength(h, o, assets[id := a], ids + [id]);
  }

  /// Why an asset is refused: its id, its tier and its size are looked at first, and then the size of the pak that
  /// would be built with it.
  lemma AddRefusedIff(z: Zstd, h: Hashes, o: PakOptions, assets: Assets, ids: seq<AssetId>, id: AssetId, cooked: Bytes,
                      tier: nat)
    requires Orders(assets, ids)
    ensures id !in assets ==> Orders(assets[id := StoreAsset(z, cooked)], ids + [id])
    ensures AddFailure(assets, ids, id, StoreAsset(z, cooked), tier)
            == if id == 0 then Some(InvalidId)
               else if id in assets then Some(AlreadyAdded)
               else if tier > 2 then Some(InvalidTier)
               else if |cooked| > 0x8000_0000 then Some(AssetTooLarge)
               else if |Build(h, o, assets[id := StoreAsset(z, cooked)], ids + [id])| > 0x8000_0000
               then Some(PakTooLarge)
               else None
  {
    var a := StoreAsset(z, cooked);
    assert a.cooked == cooked;
    hide StoreAsset, Build, BlobBytes, BlockTotal, FileSize, SizeWith, Orders;
    if id !in assets { ExpectsBuilt(h, o, assets, ids, id, a); }
  }
}
