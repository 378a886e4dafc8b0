/// The .hpak v0 format: header and table-of-contents entries as bytes
/// (engine/asset/src/hpak_format.cpp, engine/asset/include/helios/asset/hpak_format.h).
module PakFormat {
  import opened ByteStrings

  const MAGIC: nat := 0x4B41_5048
  const HEADER_BLOCK: nat := 4096
  const HEADER_BYTES: nat := 88
  const HASHED_BYTES: nat := 80
  const ALIGNMENT: nat := 4096
  const ASSET_BLOCK: nat := 262_144
  const PAK_BLOCK: nat := 65_536
  const MAX_PAK: nat := 0x8000_0000
  const MAX_ASSET: nat := 0x8000_0000
  const ENTRY_BYTES: nat := 64
  const SIZE_BYTES: nat := 4
  const HASH_BYTES: nat := 8
  const MAX_TIER: nat := 2
  const MAX_STORED_BLOCK: nat := 263_168

  /// Reserved bytes are kept as numbers.
  datatype Header = Header(magic: nat, version: nat, reserved0: nat, platform: nat, flags: nat, contentBuild: nat,
                           group: nat, language: nat, tier: nat, reserved1: nat, tocOffset: nat, tocSize: nat,
                           assetCount: nat, assetBlockCount: nat, pakBlockCount: nat, reserved2: nat,
                           tocHash: nat, headerHash: nat)

  datatype Entry = Entry(id: nat, hashLow: nat, hashHigh: nat, offset: nat, compSize: nat, rawSize: nat,
                         firstBlock: nat, blockCount: nat, codec: nat, reserved: nat)

  function AssetBlockCount(rawSize: nat): nat {
    Pieces(rawSize, ASSET_BLOCK)
  }

  function PakBlockCount(dataBytes: nat): nat {
    Pieces(dataBytes, PAK_BLOCK)
  }

  function TocSize(assets: nat, assetBlocks: nat, pakBlocks: nat): nat {
    assets * ENTRY_BYTES + assetBlocks * SIZE_BYTES + pakBlocks * HASH_BYTES
  }

  predicate HeaderFits(h: Header) {
    && h.magic < U32 && h.version < 0x1_0000 && h.reserved0 < 0x1_0000 && h.platform < U32 && h.flags < U32
    && h.contentBuild < U64 && h.group < U64 && h.language < U32 && h.tier < 256 && h.reserved1 < 0x100_0000
    && h.tocOffset < U64 && h.tocSize < U64 && h.assetCount < U32 && h.assetBlockCount < U32
    && h.pakBlockCount < U32 && h.reserved2 < U32 && h.tocHash < U64 && h.headerHash < U64
  }

  predicate EntryFits(e: Entry) {
    && e.id < U64 && e.hashLow < U64 && e.hashHigh < U64 && e.offset < U64 && e.compSize < U64 && e.rawSize < U64
    && e.firstBlock < U32 && e.blockCount < U32 && e.codec < 256 && e.reserved < 0x100_0000_0000_0000
  }

  function HeaderParts(h: Header): seq<Bytes> {
    [LittleEndian(h.magic, 4), LittleEndian(h.version, 2), LittleEndian(h.reserved0, 2), LittleEndian(h.platform, 4),
     LittleEndian(h.flags, 4), LittleEndian(h.contentBuild, 8), LittleEndian(h.group, 8), LittleEndian(h.language, 4),
     LittleEndian(h.tier, 1), LittleEndian(h.reserved1, 3), LittleEndian(h.tocOffset, 8), LittleEndian(h.tocSize, 8),
     LittleEndian(h.assetCount, 4), LittleEndian(h.assetBlockCount, 4), LittleEndian(h.pakBlockCount, 4),
     LittleEndian(h.reserved2, 4), LittleEndian(h.tocHash, 8), LittleEndian(h.headerHash, 8)]
  }

  function EntryParts(e: Entry): seq<Bytes> {
    [LittleEndian(e.id, 8), LittleEndian(e.hashLow, 8), LittleEndian(e.hashHigh, 8), LittleEndian(e.offset, 8),
     LittleEndian(e.compSize, 8), LittleEndian(e.rawSize, 8), LittleEndian(e.firstBlock, 4),
     LittleEndian(e.blockCount, 4), LittleEndian(e.codec, 1), LittleEndian(e.reserved, 7)]
  }

  function EncodeHeader(h: Header): Bytes {
    Join(HeaderParts(h))
  }

  function EncodeEntry(e: Entry): Bytes {
    Join(EntryParts(e))
  }

  function Load(b: Bytes, at: nat, width: nat): nat
    requires at + width <= |b|
  {
    Number(b[at..at + width])
  }

  function DecodeHeader(b: Bytes): Header
    requires |b| >= HEADER_BYTES
  {
    Header(Load(b, 0, 4), Load(b, 4, 2), Load(b, 6, 2), Load(b, 8, 4), Load(b, 12, 4), Load(b, 16, 8), Load(b, 24, 8),
           Load(b, 32, 4), Load(b, 36, 1), Load(b, 37, 3), Load(b, 40, 8), Load(b, 48, 8), Load(b, 56, 4),
           Load(b, 60, 4),
           Load(b, 64, 4), Load(b, 68, 4), Load(b, 72, 8), Load(b, 80, 8))
  }

  function DecodeEntry(b: Bytes): Entry
    requires |b| >= ENTRY_BYTES
  {
    Entry(Load(b, 0, 8), Load(b, 8, 8), Load(b, 16, 8), Load(b, 24, 8), Load(b, 32, 8), Load(b, 40, 8), Load(b, 48, 4),
          Load(b, 52, 4), Load(b, 56, 1), Load(b, 57, 7))
  }

  lemma PartLoads(parts: seq<Bytes>, i: nat, v: nat, width: nat)
    requires i < |parts| && parts[i] == LittleEndian(v, width) && v < Pow256(width)
    ensures Start(parts, i) + width <= |Join(parts)|
    ensures Load(Join(parts), Start(parts, i), width) == v
    ensures Start(parts, i + 1) == Start(parts, i) + width
  {
    JoinPart(parts, i);
    NumberOfLittleEndian(v, width);
  }

  lemma StartsTo8(p: seq<Bytes>)
    requires |p| == 18 && |p[0]| == 4 && |p[1]| == 2 && |p[2]| == 2 && |p[3]| == 4 && |p[4]| == 4 && |p[5]| == 8
             && |p[6]| == 8 && |p[7]| == 4
    ensures Start(p, 1) == 4 && Start(p, 2) == 6 && Start(p, 3) == 8 && Start(p, 4) == 12 && Start(p, 5) == 16
            && Start(p, 6) == 24 && Start(p, 7) == 32 && Start(p, 8) == 36
  {
    assert Start(p, 1) == 4;
    assert Start(p, 2) == 6;
    assert Start(p, 4) == 12;
    assert Start(p, 6) == 24;
  }

  lemma HeaderStarts(h: Header)
    ensures var p := HeaderParts(h);
            Start(p, 1) == 4 && Start(p, 2) == 6 && Start(p, 3) == 8 && Start(p, 4) == 12 && Start(p, 5) == 16
            && Start(p, 6) == 24 && Start(p, 7) == 32 && Start(p, 8) == 36 && Start(p, 9) == 37 && Start(p, 10) == 40
            && Start(p, 11) == 48 && Start(p, 12) == 56 && Start(p, 13) == 60 && Start(p, 14) == 64
            && Start(p, 15) == 68 && Start(p, 16) == 72 && Start(p, 17) == 80 && Start(p, 18) == 88
  {
    var p := HeaderParts(h);
    StartsTo8(p);
    assert Start(p, 10) == 40;
    assert Start(p, 12) == 56;
    assert Start(p, 14) == 64;
    assert Start(p, 16) == 72;
  }

  lemma HeaderLength(h: Header)
    ensures |EncodeHeader(h)| == HEADER_BYTES
  {
    HeaderStarts(h);
    JoinLength(HeaderParts(h));
  }

  lemma HeaderLoads(h: Header, i: nat, at: nat, v: nat, width: nat)
    requires i < 18 && Start(HeaderParts(h), i) == at && HeaderParts(h)[i] == LittleEndian(v, width)
    requires v < Pow256(width) && at + width <= HEADER_BYTES
    ensures |EncodeHeader(h)| == HEADER_BYTES && Load(EncodeHeader(h), at, width) == v
  {
    HeaderLength(h);
    PartLoads(HeaderParts(h), i, v, width);
  }

  lemma FirstHalfLoads(h: Header)
    requires HeaderFits(h)
    ensures |EncodeHeader(h)| == HEADER_BYTES
    ensures var d := DecodeHeader(EncodeHeader(h));
            d.magic == h.magic && d.version == h.version && d.reserved0 == h.reserved0 && d.platform == h.platform
            && d.flags == h.flags && d.contentBuild == h.contentBuild && d.group == h.group && d.language == h.language
            && d.tier == h.tier
  {
    Widths();
    HeaderStarts(h);
    HeaderLoads(h, 0, 0, h.magic, 4);
    HeaderLoads(h, 1, 4, h.version, 2);
    HeaderLoads(h, 2, 6, h.reserved0, 2);
    HeaderLoads(h, 3, 8, h.platform, 4);
    HeaderLoads(h, 4, 12, h.flags, 4);
    HeaderLoads(h, 5, 16, h.contentBuild, 8);
    HeaderLoads(h, 6, 24, h.group, 8);
    HeaderLoads(h, 7, 32, h.language, 4);
    HeaderLoads(h, 8, 36, h.tier, 1);
  }

  lemma SecondHalfLoads(h: Header)
    requires HeaderFits(h)
    ensures |EncodeHeader(h)| == HEADER_BYTES
    ensures var d := DecodeHeader(EncodeHeader(h));
            d.reserved1 == h.reserved1 && d.tocOffset == h.tocOffset && d.tocSize == h.tocSize
            && d.assetCount == h.assetCount && d.assetBlockCount == h.assetBlockCount
            && d.pakBlockCount == h.pakBlockCount && d.reserved2 == h.reserved2 && d.tocHash == h.tocHash
            && d.headerHash == h.headerHash
  {
    Widths();
    HeaderStarts(h);
    HeaderLoads(h, 9, 37, h.reserved1, 3);
    HeaderLoads(h, 10, 40, h.tocOffset, 8);
    HeaderLoads(h, 11, 48, h.tocSize, 8);
    HeaderLoads(h, 12, 56, h.assetCount, 4);
    HeaderLoads(h, 13, 60, h.assetBlockCount, 4);
    HeaderLoads(h, 14, 64, h.pakBlockCount, 4);
    HeaderLoads(h, 15, 68, h.reserved2, 4);
    HeaderLoads(h, 16, 72, h.tocHash, 8);
    HeaderLoads(h, 17, 80, h.headerHash, 8);
  }

  /// Every header field survives encoding, at the offset the format gives it.
  lemma HeaderRoundTrip(h: Header)
    requires HeaderFits(h)
    ensures |EncodeHeader(h)| == HEADER_BYTES && DecodeHeader(EncodeHeader(h)) == h
  {
    FirstHalfLoads(h);
    SecondHalfLoads(h);
  }

  lemma EntryStarts(e: Entry)
    ensures var p := EntryParts(e);
            Start(p, 1) == 8 && Start(p, 2) == 16 && Start(p, 3) == 24 && Start(p, 4) == 32 && Start(p, 5) == 40
            && Start(p, 6) == 48 && Start(p, 7) == 52 && Start(p, 8) == 56 && Start(p, 9) == 57
    ensures |EncodeEntry(e)| == ENTRY_BYTES
  {
    var p := EntryParts(e);
    assert Start(p, 1) == 8;
    assert Start(p, 2) == 16;
    assert Start(p, 4) == 32;
    assert Start(p, 6) == 48;
    assert Start(p, 8) == 56;
    assert Start(p, 10) == 64;
    JoinLength(p);
  }

  lemma EntryLoads(e: Entry, i: nat, at: nat, v: nat, width: nat)
    requires i < 10 && Start(EntryParts(e), i) == at && EntryParts(e)[i] == LittleEndian(v, width)
    requires v < Pow256(width) && at + width <= ENTRY_BYTES
    ensures |EncodeEntry(e)| == ENTRY_BYTES && Load(EncodeEntry(e), at, width) == v
  {
    EntryStarts(e);
    PartLoads(EntryParts(e), i, v, width);
  }

  lemma EntryRoundTrip(e: Entry)
    requires EntryFits(e)
    ensures |EncodeEntry(e)| == ENTRY_BYTES && DecodeEntry(EncodeEntry(e)) == e
  {
    Widths();
    EntryStarts(e);
    EntryLoads(e, 0, 0, e.id, 8);
    EntryLoads(e, 1, 8, e.hashLow, 8);
    EntryLoads(e, 2, 16, e.hashHigh, 8);
    EntryLoads(e, 3, 24, e.offset, 8);
    EntryLoads(e, 4, 32, e.compSize, 8);
    EntryLoads(e, 5, 40, e.rawSize, 8);
    EntryLoads(e, 6, 48, e.firstBlock, 4);
    EntryLoads(e, 7, 52, e.blockCount, 4);
    EntryLoads(e, 8, 56, e.codec, 1);
    EntryLoads(e, 9, 57, e.reserved, 7);
  }

  /// The header hash covers the bytes before it and does not depend on itself.
  lemma HashedPartFixed(h: Header, hash: nat)
    ensures |EncodeHeader(h)| == |EncodeHeader(h.(headerHash := hash))| == HEADER_BYTES
    ensures EncodeHeader(h)[..HASHED_BYTES] == EncodeHeader(h.(headerHash := hash))[..HASHED_BYTES]
  {
    HeaderLength(h);
    HeaderLength(h.(headerHash := hash));
    HeaderStarts(h);
    var p, q := HeaderParts(h), HeaderParts(h.(headerHash := hash));
    assert p[..17] == q[..17];
    JoinLength(p[..17]);
    StartOfPrefix(p[..17], p, 17);
  }
}
