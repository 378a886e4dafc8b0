/// Which files open as a pak, and which reads succeed, whoever wrote the file: told from the bytes of the file
/// (engine/asset/src/hpak_reader.cpp:138-397).
module PakIntegrity {
  import opened ByteStrings
  import opened HpakReaders
  import opened Options
  import opened PakFormat
  import opened PakRoundTrip
  import PakReader
  import opened PakWriter
  import opened Sums

  // -- Fetching ------------------------------------------------------------------------------

  /// The pak blocks that cover the bytes match their checksums.
  ghost predicate Covered(h: Hashes, p: PakReader.Pak, start: nat, size: nat)
    requires p.dataEnd <= |p.file|
  {
    forall b: nat :: HEADER_BLOCK + b * 65_536 < start + size && start < HEADER_BLOCK + b * 65_536 + 65_536 ==>
      MatchesChecksum(h, p, b)
  }

  ghost predicate MatchesChecksum(h: Hashes, p: PakReader.Pak, b: nat)
    requires p.dataEnd <= |p.file|
  {
    var from, end := HEADER_BLOCK + b * 65_536, HEADER_BLOCK + b * 65_536 + 65_536;
    && b < |p.hashes| && from <= p.dataEnd
    && h.hash64(p.file[from..if end < p.dataEnd then end else p.dataEnd]) == p.hashes[b]
  }

  /// A fetch gives the bytes of the file exactly when every pak block that covers one of them matches its checksum.
  lemma FetchIffCovered(h: Hashes, p: PakReader.Pak, start: nat, size: nat)
    requires size > 0 && HEADER_BLOCK <= start && start + size <= p.dataEnd <= |p.file|
    ensures PakReader.Fetch(h, p, start, size)
            == if Covered(h, p, start, size) then Some(p.file[start..start + size]) else None
  {
    var first, last := (start - HEADER_BLOCK) / PAK_BLOCK, (start + size - 1 - HEADER_BLOCK) / PAK_BLOCK;
    forall b: nat
      ensures first <= b <= last <==>
              HEADER_BLOCK + b * 65_536 < start + size && start < HEADER_BLOCK + b * 65_536 + 65_536
      ensures PakReader.BlockMatches(h, p, b) <==> MatchesChecksum(h, p, b)
    {
    }
  }

  // -- Opening -------------------------------------------------------------------------------

  function BlocksBefore(entries: seq<Entry>, i: nat): nat
    requires i <= |entries|
  {
    if i == 0 then 0 else BlocksBefore(entries, i - 1) + entries[i - 1].blockCount
  }

  /// A stored block is the piece itself, or one frame of a bounded size.
  predicate SizeListed(e: Entry, sizes: seq<nat>, k: nat)
    requires e.firstBlock + k < |sizes| && k < e.blockCount
  {
    if e.codec == 1 then 0 < sizes[e.firstBlock + k] <= 263_168
    else sizes[e.firstBlock + k] == if k + 1 < e.blockCount then 262_144 else e.rawSize - k * 262_144
  }

  /// What a table entry must say: a new highest id, a known codec, as many blocks as its size needs right after those
  /// of the entry before, and a blob inside the region that is as long as those blocks.
  predicate EntryListed(entries: seq<Entry>, i: nat, sizes: seq<nat>, dataEnd: nat)
    requires i < |entries|
  {
    var e := entries[i];
    && (if i == 0 then e.id > 0 else e.id > entries[i - 1].id)
    && (e.codec == 0 || e.codec == 1) && e.reserved == 0 && e.rawSize <= 0x8000_0000
    && e.rawSize <= e.blockCount * 262_144 < e.rawSize + 262_144
    && e.firstBlock == BlocksBefore(entries, i) && e.firstBlock + e.blockCount <= |sizes|
    && 4096 <= e.offset && e.offset % 4096 == 0 && e.offset + e.compSize <= dataEnd
    && Sum(sizes[e.firstBlock..e.firstBlock + e.blockCount]) == e.compSize
    && forall k :: 0 <= k < e.blockCount ==> SizeListed(e, sizes, k)
  }

  predicate EntriesListed(entries: seq<Entry>, sizes: seq<nat>, dataEnd: nat) {
    && BlocksBefore(entries, |entries|) == |sizes|
    && forall i :: 0 <= i < |entries| ==> EntryListed(entries, i, sizes, dataEnd)
  }

  lemma BlocksNeeded(rawSize: nat, blockCount: nat)
    ensures blockCount == AssetBlockCount(rawSize) <==> rawSize <= blockCount * 262_144 < rawSize + 262_144
  {
  }

  lemma LastPiece(rawSize: nat, blockCount: nat, k: nat)
    requires rawSize <= blockCount * 262_144 < rawSize + 262_144 && k < blockCount
    ensures PieceLength(rawSize, ASSET_BLOCK, k) == if k + 1 < blockCount then 262_144 else rawSize - k * 262_144
  {
  }

  lemma ListedIsOk(entries: seq<Entry>, i: nat, sizes: seq<nat>, dataEnd: nat)
    requires i < |entries|
    ensures EntryListed(entries, i, sizes, dataEnd) <==>
            PakReader.EntryOk(entries[i], if i == 0 then 0 else entries[i - 1].id, BlocksBefore(entries, i), sizes,
                              dataEnd)
  {
    hide Sum;
    var e, first := entries[i], BlocksBefore(entries, i);
    BlocksNeeded(e.rawSize, e.blockCount);
    hide AssetBlockCount;
    if EntryListed(entries, i, sizes, dataEnd) {
      forall k | 0 <= k < e.blockCount ensures PakReader.BlockSizeAt(e, sizes, first, k) {
        LastPiece(e.rawSize, e.blockCount, k);
        assert SizeListed(e, sizes, k);
      }
    }
    if PakReader.EntryOk(e, if i == 0 then 0 else entries[i - 1].id, first, sizes, dataEnd) {
      forall k | 0 <= k < e.blockCount ensures SizeListed(e, sizes, k) {
        LastPiece(e.rawSize, e.blockCount, k);
        assert PakReader.BlockSizeAt(e, sizes, first, k);
      }
    }
  }

  lemma {:induction false} ListedFrom(entries: seq<Entry>, i: nat, sizes: seq<nat>, dataEnd: nat)
    requires i <= |entries|
    ensures PakReader.CheckEntries(entries, i, if i == 0 then 0 else entries[i - 1].id, BlocksBefore(entries, i), sizes,
                                   dataEnd)
            == if forall j :: i <= j < |entries| ==> EntryListed(entries, j, sizes, dataEnd)
               then Some(BlocksBefore(entries, |entries|)) else None
    decreases |entries| - i
  {
    hide EntryListed, PakReader.EntryOk;
    if i < |entries| {
      ListedIsOk(entries, i, sizes, dataEnd);
      ListedFrom(entries, i + 1, sizes, dataEnd);
    }
  }

  /// The fixed part of the file is intact: its checksum, its reserved bytes, its platform.
  predicate HeaderIntact(h: Hashes, file: Bytes, header: Header)
    requires |file| >= 4096
  {
    && h.hash64(file[..80]) == header.headerHash
    && header.reserved0 == 0 && header.flags == 0 && header.reserved1 == 0 && header.reserved2 == 0
    && (forall i :: 88 <= i < 4096 ==> file[i] == 0)
    && (header.platform == 1 || header.platform == 2 || header.platform == 3)
  }

  /// The table of contents fills the file from its aligned offset on, and has the size that its counts need.
  predicate TableFits(file: Bytes, header: Header) {
    && header.tier <= 2
    && 4096 <= header.tocOffset <= |file| && header.tocOffset % 4096 == 0
    && header.tocOffset + header.tocSize == |file|
    && header.tocOffset - 4096 <= header.pakBlockCount * 65_536 < header.tocOffset - 4096 + 65_536
    && header.tocSize == header.assetCount * 64 + header.assetBlockCount * 4 + header.pakBlockCount * 8
  }

  lemma IntactIsSealed(h: Hashes, file: Bytes, header: Header)
    requires |file| >= 4096
    ensures PakReader.HeaderSealed(h, file[..HEADER_BLOCK], header) <==> HeaderIntact(h, file, header)
  {
    var block := file[..HEADER_BLOCK];
    assert block[..HASHED_BYTES] == file[..80];
    if forall i :: 88 <= i < 4096 ==> file[i] == 0 {
      assert block[HEADER_BYTES..] == Zeros(HEADER_BLOCK - HEADER_BYTES);
    }
    if block[HEADER_BYTES..] == Zeros(HEADER_BLOCK - HEADER_BYTES) {
      forall i | 88 <= i < 4096 ensures file[i] == 0 { assert block[HEADER_BYTES..][i - 88] == file[i]; }
    }
  }

  lemma FitsIsLayout(file: Bytes, header: Header)
    ensures PakReader.LayoutOk(header, |file|) <==> TableFits(file, header)
  {
    if header.tocOffset >= 4096 { PakBlocksNeeded(header.tocOffset - 4096, header.pakBlockCount); }
  }

  lemma PakBlocksNeeded(size: nat, count: nat)
    ensures count == PakBlockCount(size) <==> size <= count * 65_536 < size + 65_536
  {
  }

  /// The tables are those in the file, at their places.
  ghost predicate TablesRead(file: Bytes, header: Header, p: PakReader.Pak)
    requires TableFits(file, header)
  {
    var sizesAt := header.tocOffset + header.assetCount * 64;
    var hashesAt := sizesAt + header.assetBlockCount * 4;
    && p.file == file && p.dataEnd == header.tocOffset
    && |p.entries| == header.assetCount && |p.sizes| == header.assetBlockCount && |p.hashes| == header.pakBlockCount
    && (forall i {:trigger p.entries[i]} :: 0 <= i < |p.entries| ==>
          p.entries[i] == DecodeEntry(file[header.tocOffset + i * 64..header.tocOffset + i * 64 + 64]))
    && (forall i {:trigger p.sizes[i]} :: 0 <= i < |p.sizes| ==> p.sizes[i] == Load(file, sizesAt + i * 4, 4))
    && (forall i {:trigger p.hashes[i]} :: 0 <= i < |p.hashes| ==> p.hashes[i] == Load(file, hashesAt + i * 8, 8))
  }

  function TablesOf(file: Bytes, header: Header): PakReader.Pak
    requires TableFits(file, header)
  {
    var toc, sizesAt := file[header.tocOffset..], header.assetCount * ENTRY_BYTES;
    PakReader.Pak(file, header.tocOffset, PakReader.Decoded(toc, header.assetCount),
                  PakReader.Table(toc, sizesAt, header.assetBlockCount, SIZE_BYTES),
                  PakReader.Table(toc, sizesAt + header.assetBlockCount * SIZE_BYTES, header.pakBlockCount, HASH_BYTES))
  }

  lemma LoadInTail(file: Bytes, from: nat, at: nat, width: nat)
    requires from + at + width <= |file|
    ensures Load(file[from..], at, width) == Load(file, from + at, width)
  {
    assert file[from..][at..at + width] == file[from + at..from + at + width];
  }

  lemma TablesAreRead(file: Bytes, header: Header)
    requires TableFits(file, header)
    ensures TablesRead(file, header, TablesOf(file, header))
  {
    hide DecodeEntry, Load;
    var p, from, toc := TablesOf(file, header), header.tocOffset, file[header.tocOffset..];
    var sizesAt := header.assetCount * 64;
    var hashesAt := sizesAt + header.assetBlockCount * 4;
    forall i | 0 <= i < |p.entries| ensures p.entries[i] == DecodeEntry(file[from + i * 64..from + i * 64 + 64]) {
      assert toc[i * 64..i * 64 + 64] == file[from + i * 64..from + i * 64 + 64];
    }
    forall i | 0 <= i < |p.sizes| ensures p.sizes[i] == Load(file, from + sizesAt + i * 4, 4) {
      LoadInTail(file, from, sizesAt + i * 4, 4);
    }
    forall i | 0 <= i < |p.hashes| ensures p.hashes[i] == Load(file, from + hashesAt + i * 8, 8) {
      LoadInTail(file, from, hashesAt + i * 8, 8);
    }
  }

  /// A file opens exactly when it is neither too short nor above the 2 GiB limit, its header is that of version 0,
  /// intact and for the platform asked for, its table fits, is intact and lists proper entries; then the tables are
  /// the file's.
  lemma OpensIffIntact(h: Hashes, file: Bytes, platform: Option<nat>)
    ensures PakReader.Parse(h, file, platform).Ok? <==>
            && 4096 <= |file| <= 0x8000_0000
            && var header := DecodeHeader(file[..4096]);
            && header.magic == 0x4B41_5048 && header.version == 0 && HeaderIntact(h, file, header)
            && (platform == None || platform == Some(header.platform))
            && TableFits(file, header) && h.hash64(file[header.tocOffset..]) == header.tocHash
            && var p := TablesOf(file, header); EntriesListed(p.entries, p.sizes, p.dataEnd)
    ensures PakReader.Parse(h, file, platform).Ok? ==>
              TablesRead(file, DecodeHeader(file[..4096]), PakReader.Parse(h, file, platform).value)
  {
    hide PakReader.CheckEntries, DecodeHeader, PakReader.Decoded, PakReader.Table, EntriesListed, TablesRead,
      PakReader.HeaderSealed, HeaderIntact, PakReader.LayoutOk, TableFits;
    if 4096 <= |file| <= 0x8000_0000 {
      var header := DecodeHeader(file[..4096]);
      IntactIsSealed(h, file, header);
      FitsIsLayout(file, header);
      if TableFits(file, header) {
        TablesAreRead(file, header);
        TablesListed(TablesOf(file, header));
      }
    }
  }

  lemma TablesListed(p: PakReader.Pak)
    ensures PakReader.CheckEntries(p.entries, 0, 0, 0, p.sizes, p.dataEnd) == Some(|p.sizes|) <==>
            EntriesListed(p.entries, p.sizes, p.dataEnd)
  {
    ListedFrom(p.entries, 0, p.sizes, p.dataEnd);
    hide PakReader.CheckEntries, EntryListed;
  }

  /// Why a file does not open: above the limit, another version, another platform, or corrupt.
  lemma OpenRefused(h: Hashes, file: Bytes, platform: Option<nat>)
    requires PakReader.Parse(h, file, platform).Err?
    ensures PakReader.Parse(h, file, platform).error
            == if |file| > 0x8000_0000 then PakReader.LimitExceeded
               else if |file| < 4096 then PakReader.Corrupt
               else
                 var header := DecodeHeader(file[..4096]);
                 if header.magic != 0x4B41_5048 then PakReader.Corrupt
                 else if header.version != 0 then PakReader.VersionMismatch
                 else if HeaderIntact(h, file, header) && platform != None && platform != Some(header.platform)
                 then PakReader.Unsupported
                 else PakReader.Corrupt
  {
    if 4096 <= |file| <= 0x8000_0000 {
      IntactIsSealed(h, file, DecodeHeader(file[..4096]));
      hide DecodeHeader, HeaderIntact, PakReader.HeaderSealed, PakReader.CheckEntries;
    }
  }

  // -- Reading -------------------------------------------------------------------------------

  /// The k-th stored block decodes to the piece: its pak blocks match their checksums, and it is the piece itself or
  /// one frame that declares and gives it.
  ghost predicate BlockReads(z: Zstd, h: Hashes, p: PakReader.Pak, e: Entry, k: nat, piece: Bytes)
    requires p.dataEnd <= |p.file|
  {
    && e.firstBlock + k < |p.sizes|
    && var at, stored := e.offset + StoredBefore(p.sizes, e, k), p.sizes[e.firstBlock + k];
    && 0 < stored && at + stored <= p.dataEnd && Covered(h, p, at, stored)
    && var bytes := p.file[at..at + stored];
       if e.codec == 0 then piece == bytes
       else
         z.declared(bytes) == Some(|piece|) && z.frameSize(bytes) == Some(stored)
         && z.decompress(bytes) == Some(piece)
  }

  function PieceOf(out: Bytes, k: nat): Bytes {
    if k * 262_144 >= |out| then []
    else out[k * 262_144..if k * 262_144 + 262_144 < |out| then k * 262_144 + 262_144 else |out|]
  }

  ghost predicate ReadsFrom(z: Zstd, h: Hashes, p: PakReader.Pak, e: Entry, k: nat, out: Bytes)
    requires p.dataEnd <= |p.file|
  {
    && |out| == (if k * 262_144 < e.rawSize then e.rawSize - k * 262_144 else 0)
    && forall j: nat :: k + j < e.blockCount ==> BlockReads(z, h, p, e, k + j, PieceOf(out, j))
  }

  lemma EntryBlocks(p: PakReader.Pak, e: Entry)
    requires EntryChecked(p, e)
    ensures e.rawSize <= e.blockCount * 262_144 < e.rawSize + 262_144 && e.codec <= 1
    ensures e.codec == 0 ==> forall k {:trigger p.sizes[e.firstBlock + k]} :: 0 <= k < e.blockCount ==>
              e.firstBlock + k < |p.sizes| && p.sizes[e.firstBlock + k] == PieceLength(e.rawSize, ASSET_BLOCK, k)
  {
    var previous: nat :| PakReader.EntryOk(e, previous, e.firstBlock, p.sizes, p.dataEnd);
    BlocksNeeded(e.rawSize, e.blockCount);
    hide Sum;
    if e.codec == 0 {
      forall k | 0 <= k < e.blockCount
        ensures e.firstBlock + k < |p.sizes| && p.sizes[e.firstBlock + k] == PieceLength(e.rawSize, ASSET_BLOCK, k)
      {
        assert PakReader.BlockSizeAt(e, p.sizes, e.firstBlock, k);
      }
    }
  }

  lemma FirstPiece(out: Bytes, rawSize: nat, k: nat)
    requires k * 262_144 < rawSize && |out| == rawSize - k * 262_144
    ensures |PieceOf(out, 0)| == PieceLength(rawSize, ASSET_BLOCK, k)
    ensures out == PieceOf(out, 0) + out[|PieceOf(out, 0)|..]
  {
  }

  lemma LaterPiece(out: Bytes, j: nat)
    requires |out| > 262_144
    ensures PieceOf(out[262_144..], j) == PieceOf(out, j + 1)
  {
  }

  /// What decoding one block gives.
  ghost function Decoding(z: Zstd, h: Hashes, p: PakReader.Pak, e: Entry, k: nat): Option<Bytes>
    requires p.dataEnd <= |p.file| && EntryChecked(p, e) && k < e.blockCount
  {
    BlockInside(p, e, k);
    var bytes := PakReader.Fetch(h, p, e.offset + StoredBefore(p.sizes, e, k), p.sizes[e.firstBlock + k]);
    if bytes.None? then None
    else PakReader.DecodedBlock(z, e.codec, bytes.value, PieceLength(e.rawSize, ASSET_BLOCK, k))
  }

  lemma BlockDecodesTo(z: Zstd, h: Hashes, p: PakReader.Pak, e: Entry, k: nat)
    requires p.dataEnd <= |p.file| && EntryChecked(p, e) && k < e.blockCount
    ensures Decoding(z, h, p, e, k).Some? ==>
              |Decoding(z, h, p, e, k).value| == PieceLength(e.rawSize, ASSET_BLOCK, k)
    ensures forall piece: Bytes :: |piece| == PieceLength(e.rawSize, ASSET_BLOCK, k) ==>
              (Decoding(z, h, p, e, k) == Some(piece) <==> BlockReads(z, h, p, e, k, piece))
  {
    hide Covered, PakReader.Fetch, EntryChecked, StoredBefore, PieceLength, PakReader.EntryOk, Sum, AssetBlockCount;
    EntryBlocks(p, e);
    BlockInside(p, e, k);
    FetchIffCovered(h, p, e.offset + StoredBefore(p.sizes, e, k), p.sizes[e.firstBlock + k]);
    assert e.codec == 0 ==> p.sizes[e.firstBlock + k] == PieceLength(e.rawSize, ASSET_BLOCK, k);
  }

  lemma DecodingStep(z: Zstd, h: Hashes, p: PakReader.Pak, e: Entry, k: nat)
    requires p.dataEnd <= |p.file| && EntryChecked(p, e) && k < e.blockCount
    ensures PakReader.DecodeFrom(z, h, p, e, k, StoredBefore(p.sizes, e, k))
            == (var rest := PakReader.DecodeFrom(z, h, p, e, k + 1, StoredBefore(p.sizes, e, k + 1));
                if Decoding(z, h, p, e, k).None? || rest.None? then None
                else Some(Decoding(z, h, p, e, k).value + rest.value))
  {
    hide PakReader.DecodeFrom, PakReader.Fetch, PakReader.DecodedBlock, EntryChecked, StoredBefore, PieceLength,
      PakReader.EntryOk, AssetBlockCount, Sum;
    BlockInside(p, e, k);
    DecodeOne(z, h, p, e, k, StoredBefore(p.sizes, e, k));
  }

  lemma RestReads(z: Zstd, h: Hashes, p: PakReader.Pak, e: Entry, k: nat, out: Bytes)
    requires p.dataEnd <= |p.file| && EntryChecked(p, e) && k < e.blockCount && |out| == e.rawSize - k * 262_144 > 0
    ensures ReadsFrom(z, h, p, e, k, out) <==>
            BlockReads(z, h, p, e, k, PieceOf(out, 0)) && ReadsFrom(z, h, p, e, k + 1, out[|PieceOf(out, 0)|..])
  {
    EntryBlocks(p, e);
    hide BlockReads, EntryChecked;
    var rest := out[|PieceOf(out, 0)|..];
    if k + 1 < e.blockCount {
      forall j: nat ensures PieceOf(rest, j) == PieceOf(out, j + 1) { LaterPiece(out, j); }
      hide PieceOf;
      if ReadsFrom(z, h, p, e, k, out) {
        assert k + 0 < e.blockCount;
        forall j: nat | k + 1 + j < e.blockCount ensures BlockReads(z, h, p, e, k + 1 + j, PieceOf(rest, j)) {
          assert BlockReads(z, h, p, e, k + (j + 1), PieceOf(out, j + 1));
        }
      }
      if BlockReads(z, h, p, e, k, PieceOf(out, 0)) && ReadsFrom(z, h, p, e, k + 1, rest) {
        forall j: nat | k + j < e.blockCount ensures BlockReads(z, h, p, e, k + j, PieceOf(out, j)) {
          if j > 0 { assert BlockReads(z, h, p, e, k + 1 + (j - 1), PieceOf(rest, j - 1)); }
        }
      }
    } else {
      hide PieceOf;
      assert ReadsFrom(z, h, p, e, k, out) ==> BlockReads(z, h, p, e, k + 0, PieceOf(out, 0));
      if BlockReads(z, h, p, e, k, PieceOf(out, 0)) {
        forall j: nat | k + j < e.blockCount ensures BlockReads(z, h, p, e, k + j, PieceOf(out, j)) { assert j == 0; }
      }
    }
  }

  lemma ReadsLength(z: Zstd, h: Hashes, p: PakReader.Pak, e: Entry, k: nat, out: Bytes)
    requires p.dataEnd <= |p.file|
    ensures ReadsFrom(z, h, p, e, k, out) ==>
              |out| == if k * 262_144 < e.rawSize then e.rawSize - k * 262_144 else 0
  {
  }

  /// One block decoded in front of what the later blocks decode to.
  lemma OneMoreReads(z: Zstd, h: Hashes, p: PakReader.Pak, e: Entry, k: nat, out: Bytes, first: Option<Bytes>,
                     later: Option<Bytes>)
    requires p.dataEnd <= |p.file| && EntryChecked(p, e) && k < e.blockCount
    requires first.Some? ==> |first.value| == PieceLength(e.rawSize, ASSET_BLOCK, k)
    requires forall piece: Bytes :: |piece| == PieceLength(e.rawSize, ASSET_BLOCK, k) ==>
               (first == Some(piece) <==> BlockReads(z, h, p, e, k, piece))
    requires forall rest: Bytes :: later == Some(rest) <==> ReadsFrom(z, h, p, e, k + 1, rest)
    ensures first.Some? && later.Some? && out == first.value + later.value <==> ReadsFrom(z, h, p, e, k, out)
  {
    EntryBlocks(p, e);
    PieceBounds(e.rawSize, k);
    hide EntryChecked, BlockReads, ReadsFrom, PieceOf, AssetBlockCount;
    ReadsLength(z, h, p, e, k, out);
    if later.Some? { ReadsLength(z, h, p, e, k + 1, later.value); }
    if |out| == e.rawSize - k * 262_144 {
      FirstPiece(out, e.rawSize, k);
      RestReads(z, h, p, e, k, out);
      FirstPieceIs(out);
      SplitsOnce(first, later, out, |PieceOf(out, 0)|);
    }
  }

  /// Decoding from block k on, for any result.
  lemma {:induction false} DecodesIffReads(z: Zstd, h: Hashes, p: PakReader.Pak, e: Entry, k: nat, out: Bytes)
    requires p.dataEnd <= |p.file| && EntryChecked(p, e) && k <= e.blockCount
    ensures PakReader.DecodeFrom(z, h, p, e, k, StoredBefore(p.sizes, e, k)) == Some(out) <==>
            ReadsFrom(z, h, p, e, k, out)
    decreases e.blockCount - k
  {
    if k == e.blockCount {
      EntryBlocks(p, e);
      DecodeNone(z, h, p, e, StoredBefore(p.sizes, e, k));
    } else {
      hide PakReader.DecodeFrom, EntryChecked, BlockReads, Decoding, StoredBefore, ReadsFrom, PieceOf, PieceLength;
      DecodingStep(z, h, p, e, k);
      BlockDecodesTo(z, h, p, e, k);
      var later := PakReader.DecodeFrom(z, h, p, e, k + 1, StoredBefore(p.sizes, e, k + 1));
      forall rest: Bytes ensures later == Some(rest) <==> ReadsFrom(z, h, p, e, k + 1, rest) {
        DecodesIffReads(z, h, p, e, k + 1, rest);
      }
      OneMoreReads(z, h, p, e, k, out, Decoding(z, h, p, e, k), later);
    }
  }

  lemma FirstPieceIs(out: Bytes)
    ensures |PieceOf(out, 0)| <= |out| && PieceOf(out, 0) == out[..|PieceOf(out, 0)|]
  {
  }

  /// A string is joined from a first part of this length and a rest in one way only.
  lemma SplitsOnce(first: Option<Bytes>, rest: Option<Bytes>, out: Bytes, n: nat)
    requires n <= |out| && (first.Some? ==> |first.value| == n)
    ensures first.Some? && rest.Some? && out == first.value + rest.value
            <==> first == Some(out[..n]) && rest == Some(out[n..])
  {
    assert out == out[..n] + out[n..];
    if first.Some? && rest.Some? && out == first.value + rest.value {
      assert out[..n] == first.value && out[n..] == rest.value;
    }
  }

  /// The entry reads as these bytes: every stored block gives its piece of them, and they have the cooked hash.
  ghost predicate ReadsAs(z: Zstd, h: Hashes, p: PakReader.Pak, e: Entry, out: Bytes)
    requires p.dataEnd <= |p.file|
  {
    ReadsFrom(z, h, p, e, 0, out) && h.hashLow(out) == e.hashLow && h.hashHigh(out) == e.hashHigh
  }

  lemma ReadOf(z: Zstd, h: Hashes, p: PakReader.Pak, id: nat, out: Bytes)
    requires Checked(p) && p.dataEnd <= |p.file|
    ensures PakReader.Find(p, id).None? ==> PakReader.Read(z, h, p, id) == PakReader.Err(PakReader.NotFound)
    ensures PakReader.Find(p, id).Some? ==>
              && (PakReader.Read(z, h, p, id) == PakReader.Ok(out) <==>
                    ReadsAs(z, h, p, PakReader.Find(p, id).value, out))
              && (PakReader.Read(z, h, p, id).Err? ==> PakReader.Read(z, h, p, id).error == PakReader.Corrupt)
  {
    FoundIsChecked(p, id);
    var e := PakReader.Find(p, id);
    hide PakReader.Find, PakReader.DecodeFrom, ReadsFrom, PakReader.CheckEntries, EntryChecked;
    if e.Some? {
      FirstBlock(p.sizes, e.value);
      DecodesIffReads(z, h, p, e.value, 0, out);
    }
  }

  /// Reading any pak that opened: the bytes of the entry with the id, exactly when it reads as them; NotFound exactly
  /// when no entry has the id, and otherwise Corrupt.
  lemma ReadIffIntact(z: Zstd, h: Hashes, file: Bytes, platform: Option<nat>, id: nat, out: Bytes)
    requires PakReader.Parse(h, file, platform).Ok?
    ensures var p := PakReader.Parse(h, file, platform).value;
      && p.dataEnd <= |p.file|
      && (PakReader.Read(z, h, p, id) == PakReader.Ok(out) <==>
            exists i :: 0 <= i < |p.entries| && p.entries[i].id == id && ReadsAs(z, h, p, p.entries[i], out))
      && (PakReader.Read(z, h, p, id) == PakReader.Err(PakReader.NotFound) <==>
            forall i :: 0 <= i < |p.entries| ==> p.entries[i].id != id)
      && (PakReader.Read(z, h, p, id).Err? ==>
            PakReader.Read(z, h, p, id).error in {PakReader.NotFound, PakReader.Corrupt})
  {
    var p := PakReader.Parse(h, file, platform).value;
    ParsedIdsAscend(h, file, platform);
    ParsedIsChecked(h, file, platform);
    hide PakReader.Parse, PakReader.Find, PakReader.Read, ReadsAs, PakReader.CheckEntries;
    FindIsExact(p, id);
    ReadOf(z, h, p, id, out);
    if i :| 0 <= i < |p.entries| && p.entries[i].id == id { assert PakReader.Find(p, id) == Some(p.entries[i]); }
  }

  lemma ParsedIsChecked(h: Hashes, file: Bytes, platform: Option<nat>)
    requires PakReader.Parse(h, file, platform).Ok?
    ensures Checked(PakReader.Parse(h, file, platform).value)
  {
    hide PakReader.CheckEntries, DecodeHeader, PakReader.Table, PakReader.Decoded;
  }
}
