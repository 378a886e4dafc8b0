/// What opening and reading a pak computes (parse, find, fetch and decode in
/// engine/asset/src/hpak_reader.cpp). A source is its bytes; the checks of one fetch are those of a first read
/// (see BlockVerification for concurrent readers).
module PakReader {
  import opened ByteStrings
  import opened Options
  import opened PakFormat
  import opened PakWriter
  import opened Sums

  datatype Error = Corrupt | LimitExceeded | VersionMismatch | Unsupported | NotFound

  datatype Result<+T> = Ok(value: T) | Err(error: Error)

  datatype Pak = Pak(file: Bytes, dataEnd: nat, entries: seq<Entry>, sizes: seq<nat>, hashes: seq<nat>)

  // -- Opening -------------------------------------------------------------------------------

  function TableAt(b: Bytes, at: nat, i: nat, width: nat): nat {
    if at + i * width + width <= |b| then Load(b, at + i * width, width) else 0
  }

  function Table(b: Bytes, at: nat, count: nat, width: nat): (r: seq<nat>)
    ensures |r| == count && forall i {:trigger r[i]} :: 0 <= i < count ==> r[i] == TableAt(b, at, i, width)
  {
    seq(count, i requires 0 <= i < count => TableAt(b, at, i, width))
  }

  predicate BlockSizeOk(e: Entry, size: nat, k: nat) {
    if e.codec == CODEC_NONE then size == PieceLength(e.rawSize, ASSET_BLOCK, k) else 0 < size <= MAX_STORED_BLOCK
  }

  predicate BlockSizeAt(e: Entry, sizes: seq<nat>, first: nat, k: nat) {
    first + k < |sizes| && BlockSizeOk(e, sizes[first + k], k)
  }

  /// What an entry must satisfy; `previous` is the id before it, 0 for the first entry.
  predicate EntryOk(e: Entry, previous: nat, nextBlock: nat, sizes: seq<nat>, dataEnd: nat) {
    && e.id > previous && e.codec <= CODEC_ZSTD && e.reserved == 0
    && e.rawSize <= MAX_ASSET && e.blockCount == AssetBlockCount(e.rawSize) && e.firstBlock == nextBlock
    && nextBlock + e.blockCount <= |sizes|
    && HEADER_BLOCK <= e.offset <= dataEnd && e.offset % ALIGNMENT == 0 && e.compSize <= dataEnd - e.offset
    && (forall k :: 0 <= k < e.blockCount ==> BlockSizeAt(e, sizes, nextBlock, k))
    && Sum(sizes[nextBlock..nextBlock + e.blockCount]) == e.compSize
  }

  /// Checks the entries from i on; the block after the last entry's, or None.
  function CheckEntries(entries: seq<Entry>, i: nat, previous: nat, nextBlock: nat, sizes: seq<nat>,
                        dataEnd: nat)
    : Option<nat>
    requires i <= |entries|
    decreases |entries| - i
  {
    if i == |entries| then Some(nextBlock)
    else if !EntryOk(entries[i], previous, nextBlock, sizes, dataEnd) then None
    else CheckEntries(entries, i + 1, entries[i].id, nextBlock + entries[i].blockCount, sizes, dataEnd)
  }

  function Decoded(toc: Bytes, count: nat): (r: seq<Entry>)
    requires count * ENTRY_BYTES <= |toc|
    ensures |r| == count
    ensures forall i :: 0 <= i < count ==> r[i] == DecodeEntry(toc[i * ENTRY_BYTES..i * ENTRY_BYTES + ENTRY_BYTES])
  {
    seq(count, i requires 0 <= i < count => DecodeEntry(toc[i * ENTRY_BYTES..i * ENTRY_BYTES + ENTRY_BYTES]))
  }

  predicate HeaderSealed(h: Hashes, block: Bytes, header: Header)
    requires |block| == HEADER_BLOCK
  {
    && h.hash64(block[..HASHED_BYTES]) == header.headerHash
    && header.reserved0 == 0 && header.flags == 0 && header.reserved2 == 0 && header.reserved1 == 0
    && block[HEADER_BYTES..] == Zeros(HEADER_BLOCK - HEADER_BYTES)
    && 1 <= header.platform <= 3
  }

  predicate LayoutOk(header: Header, fileSize: nat) {
    && header.tier <= MAX_TIER
    && HEADER_BLOCK <= header.tocOffset <= fileSize && header.tocOffset % ALIGNMENT == 0
    && header.tocSize == fileSize - header.tocOffset
    && header.pakBlockCount == PakBlockCount(header.tocOffset - HEADER_BLOCK)
    && header.tocSize == TocSize(header.assetCount, header.assetBlockCount, header.pakBlockCount)
  }

  /// Opens a pak, for one platform if one is asked for.
  function Parse(h: Hashes, file: Bytes, platform: Option<nat>): Result<Pak> {
    if |file| < HEADER_BLOCK then Err(Corrupt)
    else if |file| > MAX_PAK then Err(LimitExceeded)
    else
      var block := file[..HEADER_BLOCK];
      var header := DecodeHeader(block);
      if header.magic != MAGIC then Err(Corrupt)
      else if header.version != 0 then Err(VersionMismatch)
      else if !HeaderSealed(h, block, header) then Err(Corrupt)
      else if platform.Some? && platform.value != header.platform then Err(Unsupported)
      else if !LayoutOk(header, |file|) then Err(Corrupt)
      else
        var toc := file[header.tocOffset..];
        if h.hash64(toc) != header.tocHash then Err(Corrupt)
        else
          var sizesAt := header.assetCount * ENTRY_BYTES;
          var sizes := Table(toc, sizesAt, header.assetBlockCount, SIZE_BYTES);
          var hashes := Table(toc, sizesAt + header.assetBlockCount * SIZE_BYTES, header.pakBlockCount, HASH_BYTES);
          var entries := Decoded(toc, header.assetCount);
          if CheckEntries(entries, 0, 0, 0, sizes, header.tocOffset) != Some(|sizes|) then Err(Corrupt)
          else Ok(Pak(file, header.tocOffset, entries, sizes, hashes))
  }

  // -- Reading -------------------------------------------------------------------------------

  /// The binary search for an id among ascending entries.
  function LowerBound(entries: seq<Entry>, id: nat, lo: nat, hi: nat): (i: nat)
    requires lo <= hi <= |entries|
    ensures lo <= i <= hi
    decreases hi - lo
  {
    if lo == hi then lo
    else
      var mid := (lo + hi) / 2;
      if entries[mid].id < id then LowerBound(entries, id, mid + 1, hi) else LowerBound(entries, id, lo, mid)
  }

  function Find(p: Pak, id: nat): Option<Entry> {
    var i := LowerBound(p.entries, id, 0, |p.entries|);
    if i < |p.entries| && p.entries[i].id == id then Some(p.entries[i]) else None
  }

  /// The bytes of a pak block; the last one may be short.
  function PakBlock(p: Pak, b: nat): Bytes
    requires HEADER_BLOCK + b * PAK_BLOCK <= p.dataEnd <= |p.file|
  {
    var from := HEADER_BLOCK + b * PAK_BLOCK;
    p.file[from..if from + PAK_BLOCK < p.dataEnd then from + PAK_BLOCK else p.dataEnd]
  }

  predicate BlockMatches(h: Hashes, p: Pak, b: nat) {
    HEADER_BLOCK + b * PAK_BLOCK <= p.dataEnd <= |p.file| && b < |p.hashes| && h.hash64(PakBlock(p, b)) == p.hashes[b]
  }

  /// Bytes of the blob region, once the pak blocks that cover them match their checksums.
  function Fetch(h: Hashes, p: Pak, start: nat, size: nat): Option<Bytes>
    requires size > 0 && HEADER_BLOCK <= start && start + size <= p.dataEnd <= |p.file|
  {
    var first, last := (start - HEADER_BLOCK) / PAK_BLOCK, (start + size - 1 - HEADER_BLOCK) / PAK_BLOCK;
    if forall b :: first <= b <= last ==> BlockMatches(h, p, b) then Some(p.file[start..start + size]) else None
  }

  function DecodedBlock(z: Zstd, codec: nat, bytes: Bytes, rawLen: int): Option<Bytes> {
    if codec == CODEC_NONE then Some(bytes)
    else if z.declared(bytes).None? || z.declared(bytes).value != rawLen || z.frameSize(bytes) != Some(|bytes|)
    then None
    else
      var out := z.decompress(bytes);
      if out.None? || |out.value| != rawLen then None else out
  }

  /// The asset's bytes from block k on, whose stored bytes start `rel` bytes into the blob.
  function DecodeFrom(z: Zstd, h: Hashes, p: Pak, e: Entry, k: nat, rel: nat): Option<Bytes>
    requires k <= e.blockCount && p.dataEnd <= |p.file|
    decreases e.blockCount - k
  {
    if k == e.blockCount then Some([])
    else if e.firstBlock + k >= |p.sizes| then None
    else
      var stored := p.sizes[e.firstBlock + k];
      if stored == 0 || e.offset < HEADER_BLOCK || e.offset + rel + stored > p.dataEnd then None
      else
        var bytes := Fetch(h, p, e.offset + rel, stored);
        if bytes.None? then None
        else
          var out := DecodedBlock(z, e.codec, bytes.value, PieceLength(e.rawSize, ASSET_BLOCK, k));
          if out.None? then None
          else
            var rest := DecodeFrom(z, h, p, e, k + 1, rel + stored);
            if rest.None? then None else Some(out.value + rest.value)
  }

  function Read(z: Zstd, h: Hashes, p: Pak, id: nat): Result<Bytes>
    requires p.dataEnd <= |p.file|
  {
    var e := Find(p, id);
    if e.None? then Err(NotFound)
    else
      var out := DecodeFrom(z, h, p, e.value, 0, 0);
      if out.None? || h.hashLow(out.value) != e.value.hashLow || h.hashHigh(out.value) != e.value.hashHigh
      then Err(Corrupt) else Ok(out.value)
  }
}
