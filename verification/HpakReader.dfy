/// The pak reader as the program runs it: parse fills the tables and checks the entries in loops, find searches by
/// halves, fetch checks the covering pak blocks and decode goes through an asset's blocks
/// (engine/asset/src/hpak_reader.cpp:138-397). Every method is proved against PakReader.
module HpakReaders {
  import opened ByteStrings
  import opened Options
  import opened PakFormat
  import PakReader
  import opened PakWriter
  import opened Sums

  type Error = PakReader.Error

  /// What opening leaves true of the tables: every entry passed its checks.
  ghost predicate Checked(p: PakReader.Pak) {
    p.dataEnd <= |p.file| && PakReader.CheckEntries(p.entries, 0, 0, 0, p.sizes, p.dataEnd) == Some(|p.sizes|)
  }

  ghost predicate EntryChecked(p: PakReader.Pak, e: Entry) {
    exists previous: nat :: PakReader.EntryOk(e, previous, e.firstBlock, p.sizes, p.dataEnd)
  }

  class HpakReader {
    const file: Bytes
    var dataEnd: nat
    var entries: seq<Entry>
    var sizes: seq<nat>
    var hashes: seq<nat>

    constructor (file: Bytes)
      ensures this.file == file
    {
      this.file, this.dataEnd, this.entries, this.sizes, this.hashes := file, 0, [], [], [];
    }

    ghost function Opened(): PakReader.Pak
      reads this
    {
      PakReader.Pak(file, dataEnd, entries, sizes, hashes)
    }

    ghost predicate Valid()
      reads this
    {
      Checked(Opened())
    }

    /// Opens the file; None is success. Whatever the file holds, a pak that opens is valid.
    method Parse(h: Hashes, platform: Option<nat>) returns (error: Option<Error>)
      modifies this
      ensures PakReader.Parse(h, file, platform) ==
              if error.None? then PakReader.Ok(Opened()) else PakReader.Err(error.value)
      ensures error.None? ==> Valid()
    {
      hide DecodeHeader, PakReader.HeaderSealed, PakReader.CheckEntries, PakReader.Table, PakReader.Decoded;
      if |file| < HEADER_BLOCK { return Some(PakReader.Corrupt); }
      if |file| > MAX_PAK { return Some(PakReader.LimitExceeded); }
      var block := file[..HEADER_BLOCK];
      var header := DecodeHeader(block);
      if header.magic != MAGIC { return Some(PakReader.Corrupt); }
      if header.version != 0 { return Some(PakReader.VersionMismatch); }
      if !PakReader.HeaderSealed(h, block, header) { return Some(PakReader.Corrupt); }
      if platform.Some? && platform.value != header.platform { return Some(PakReader.Unsupported); }
      if !PakReader.LayoutOk(header, |file|) { return Some(PakReader.Corrupt); }
      var toc := file[header.tocOffset..];
      if h.hash64(toc) != header.tocHash { return Some(PakReader.Corrupt); }
      var sizesAt := header.assetCount * ENTRY_BYTES;
      sizes := LoadTable(toc, sizesAt, header.assetBlockCount, SIZE_BYTES);
      hashes := LoadTable(toc, sizesAt + header.assetBlockCount * SIZE_BYTES, header.pakBlockCount, HASH_BYTES);
      var loaded, next := LoadEntries(toc, header.assetCount, sizes, header.tocOffset);
      if next != Some(|sizes|) { return Some(PakReader.Corrupt); }
      entries, dataEnd := loaded, header.tocOffset;
      return None;
    }

    /// The lower-bound search: the entry with the id, if there is one.
    method FindEntry(id: nat) returns (e: Option<Entry>)
      ensures e == PakReader.Find(Opened(), id)
    {
      var lo, hi := 0, |entries|;
      while lo < hi
        invariant lo <= hi <= |entries|
        invariant PakReader.LowerBound(entries, id, lo, hi) == PakReader.LowerBound(entries, id, 0, |entries|)
      {
        var mid := (lo + hi) / 2;
        if entries[mid].id < id { lo := mid + 1; } else { hi := mid; }
      }
      e := if lo < |entries| && entries[lo].id == id then Some(entries[lo]) else None;
    }

    /// Bytes of the blob region, once each covering pak block matches its checksum. Fewer than 64 blocks cover them.
    method FetchBytes(h: Hashes, start: nat, size: nat) returns (bytes: Option<Bytes>)
      requires 0 < size <= MAX_STORED_BLOCK && HEADER_BLOCK <= start && start + size <= dataEnd <= |file|
      ensures bytes == PakReader.Fetch(h, Opened(), start, size)
      ensures (start + size - 1 - HEADER_BLOCK) / PAK_BLOCK - (start - HEADER_BLOCK) / PAK_BLOCK < 64
    {
      var first, last := (start - HEADER_BLOCK) / PAK_BLOCK, (start + size - 1 - HEADER_BLOCK) / PAK_BLOCK;
      var b := first;
      while b <= last
        invariant first <= b <= last + 1
        invariant forall k :: first <= k < b ==> PakReader.BlockMatches(h, Opened(), k)
      {
        var from := HEADER_BLOCK + b * PAK_BLOCK;
        var end := if from + PAK_BLOCK < dataEnd then from + PAK_BLOCK else dataEnd;
        BlockStarts(start, size, b);
        if b >= |hashes| || h.hash64(file[from..end]) != hashes[b] {
          assert !PakReader.BlockMatches(h, Opened(), b);
          return None;
        }
        b := b + 1;
      }
      return Some(file[start..start + size]);
    }

    /// Decodes an asset of the pak, block after block.
    method DecodeAsset(z: Zstd, h: Hashes, e: Entry) returns (out: Option<Bytes>)
      requires Valid() && EntryChecked(Opened(), e)
      ensures out == PakReader.DecodeFrom(z, h, Opened(), e, 0, 0)
    {
      hide PakReader.DecodeFrom, PakReader.EntryOk, Sum, Appended;
      var done, rel, k := [], 0, 0;
      FirstBlock(sizes, e);
      AppendedToNone(PakReader.DecodeFrom(z, h, Opened(), e, 0, 0));
      while k < e.blockCount
        invariant 0 <= k <= e.blockCount && dataEnd <= |file| && rel == StoredBefore(sizes, e, k)
        invariant Appended(done, PakReader.DecodeFrom(z, h, Opened(), e, k, rel)) ==
                  PakReader.DecodeFrom(z, h, Opened(), e, 0, 0)
      {
        BlockInside(Opened(), e, k);
        var stored := sizes[e.firstBlock + k];
        var bytes := FetchBytes(h, e.offset + rel, stored);
        DecodeOne(z, h, Opened(), e, k, rel);
        AppendedNothing(done);
        if bytes.None? { return None; }
        var piece := PakReader.DecodedBlock(z, e.codec, bytes.value, PieceLength(e.rawSize, ASSET_BLOCK, k));
        if piece.None? { return None; }
        AppendedTwice(done, piece.value, PakReader.DecodeFrom(z, h, Opened(), e, k + 1, rel + stored));
        done, rel, k := done + piece.value, rel + stored, k + 1;
      }
      DecodeNone(z, h, Opened(), e, rel);
      AppendedNothing(done);
      return Some(done);
    }

    method ReadAsset(z: Zstd, h: Hashes, id: nat) returns (result: PakReader.Result<Bytes>)
      requires Valid()
      ensures result == PakReader.Read(z, h, Opened(), id)
    {
      var e := FindEntry(id);
      if e.None? { return PakReader.Err(PakReader.NotFound); }
      FoundIsChecked(Opened(), id);
      var out := DecodeAsset(z, h, e.value);
      if out.None? || h.hashLow(out.value) != e.value.hashLow || h.hashHigh(out.value) != e.value.hashHigh {
        return PakReader.Err(PakReader.Corrupt);
      }
      return PakReader.Ok(out.value);
    }
  }

  // -- The loops of parse ------------------------------------------------------------------------

  method LoadTable(toc: Bytes, at: nat, count: nat, width: nat) returns (table: seq<nat>)
    requires at + count * width <= |toc|
    ensures table == PakReader.Table(toc, at, count, width)
  {
    table := [];
    for i := 0 to count
      invariant |table| == i
      invariant forall k {:trigger table[k]} :: 0 <= k < i ==> table[k] == PakReader.TableAt(toc, at, k, width)
    {
      Inside(i, count, width);
      table := table + [Load(toc, at + i * width, width)];
    }
  }

  lemma Inside(i: nat, count: nat, width: nat)
    requires i < count
    ensures i * width + width <= count * width
  {
    assert (i + 1) * width <= count * width;
  }

  /// The inner loop over an entry's blocks: each stored size, and their sum.
  method CheckSizes(e: Entry, sizes: seq<nat>, nextBlock: nat) returns (ok: bool)
    requires e.firstBlock == nextBlock && nextBlock + e.blockCount <= |sizes|
    ensures ok <==> (forall k :: 0 <= k < e.blockCount ==> PakReader.BlockSizeAt(e, sizes, nextBlock, k)) &&
                    Sum(sizes[nextBlock..nextBlock + e.blockCount]) == e.compSize
  {
    var stored, k := 0, 0;
    var mine := sizes[nextBlock..nextBlock + e.blockCount];
    while k < e.blockCount
      invariant 0 <= k <= e.blockCount && stored == Sum(mine[..k])
      invariant forall j :: 0 <= j < k ==> PakReader.BlockSizeAt(e, sizes, nextBlock, j)
    {
      var size := sizes[e.firstBlock + k];
      if (if e.codec == CODEC_NONE then size != PieceLength(e.rawSize, ASSET_BLOCK, k)
          else size == 0 || size > MAX_STORED_BLOCK) {
        assert !PakReader.BlockSizeAt(e, sizes, nextBlock, k);
        return false;
      }
      assert mine[..k + 1][..k] == mine[..k];
      stored, k := stored + size, k + 1;
    }
    assert mine[..k] == mine;
    return stored == e.compSize;
  }

  method CheckEntry(e: Entry, previous: nat, nextBlock: nat, sizes: seq<nat>, dataEnd: nat) returns (ok: bool)
    ensures ok == PakReader.EntryOk(e, previous, nextBlock, sizes, dataEnd)
  {
    if e.id <= previous || e.codec > CODEC_ZSTD || e.reserved != 0 || e.rawSize > MAX_ASSET { return false; }
    if e.blockCount != AssetBlockCount(e.rawSize) || e.firstBlock != nextBlock { return false; }
    if nextBlock + e.blockCount > |sizes| { return false; }
    if e.offset < HEADER_BLOCK || e.offset > dataEnd || e.offset % ALIGNMENT != 0 { return false; }
    if e.compSize > dataEnd - e.offset { return false; }
    ok := CheckSizes(e, sizes, nextBlock);
  }

  /// The loop over the entries; `next` is the block after the last entry's, or None when an entry is refused.
  method LoadEntries(toc: Bytes, count: nat, sizes: seq<nat>, dataEnd: nat)
    returns (entries: seq<Entry>, next: Option<nat>)
    requires count * ENTRY_BYTES <= |toc|
    ensures next == PakReader.CheckEntries(PakReader.Decoded(toc, count), 0, 0, 0, sizes, dataEnd)
    ensures next.Some? ==> entries == PakReader.Decoded(toc, count)
  {
    hide PakReader.EntryOk;
    entries := [];
    var nextBlock: nat, previous: nat := 0, 0;
    ghost var all := PakReader.Decoded(toc, count);
    var i := 0;
    while i < count
      invariant 0 <= i <= count && entries == all[..i]
      invariant PakReader.CheckEntries(all, i, previous, nextBlock, sizes, dataEnd) ==
                PakReader.CheckEntries(all, 0, 0, 0, sizes, dataEnd)
    {
      var e := DecodeEntry(toc[i * ENTRY_BYTES..i * ENTRY_BYTES + ENTRY_BYTES]);
      var ok := CheckEntry(e, previous, nextBlock, sizes, dataEnd);
      if !ok { return entries, None; }
      entries := entries + [e];
      nextBlock, previous, i := nextBlock + e.blockCount, e.id, i + 1;
    }
    assert all[..count] == all;
    return entries, Some(nextBlock);
  }

  // -- What a checked entry promises its readers ----------------------------------------------------

  lemma {:induction false} EveryEntryChecked(p: PakReader.Pak, i: nat, previous: nat, nextBlock: nat, at: nat)
    requires i <= at < |p.entries|
    requires PakReader.CheckEntries(p.entries, i, previous, nextBlock, p.sizes, p.dataEnd).Some?
    ensures EntryChecked(p, p.entries[at])
    decreases |p.entries| - i
  {
    hide PakReader.EntryOk;
    assert PakReader.EntryOk(p.entries[i], previous, nextBlock, p.sizes, p.dataEnd);
    assert p.entries[i].firstBlock == nextBlock by { OkStarts(p.entries[i], previous, nextBlock, p.sizes, p.dataEnd); }
    if i < at {
      EveryEntryChecked(p, i + 1, p.entries[i].id, nextBlock + p.entries[i].blockCount, at);
    }
  }

  lemma OkStarts(e: Entry, previous: nat, nextBlock: nat, sizes: seq<nat>, dataEnd: nat)
    requires PakReader.EntryOk(e, previous, nextBlock, sizes, dataEnd)
    ensures e.firstBlock == nextBlock
  {
  }

  lemma FoundIsChecked(p: PakReader.Pak, id: nat)
    requires Checked(p)
    ensures PakReader.Find(p, id).Some? ==> EntryChecked(p, PakReader.Find(p, id).value)
  {
    var i := PakReader.LowerBound(p.entries, id, 0, |p.entries|);
    if i < |p.entries| {
      EveryEntryChecked(p, 0, 0, 0, i);
    }
  }

  /// The stored bytes before an asset's k-th block.
  ghost function StoredBefore(sizes: seq<nat>, e: Entry, k: nat): nat {
    if e.firstBlock + k <= |sizes| then Sum(sizes[e.firstBlock..e.firstBlock + k]) else 0
  }

  lemma FirstBlock(sizes: seq<nat>, e: Entry)
    ensures StoredBefore(sizes, e, 0) == 0
  {
  }

  /// Whatever file a pak was opened from, each block of its assets lies inside the blob region: what fetch asserts.
  lemma BlockInside(p: PakReader.Pak, e: Entry, k: nat)
    requires EntryChecked(p, e) && k < e.blockCount
    ensures e.firstBlock + k < |p.sizes| && 0 < p.sizes[e.firstBlock + k] <= MAX_STORED_BLOCK
    ensures StoredBefore(p.sizes, e, k + 1) == StoredBefore(p.sizes, e, k) + p.sizes[e.firstBlock + k]
    ensures HEADER_BLOCK <= e.offset
    ensures e.offset + StoredBefore(p.sizes, e, k) + p.sizes[e.firstBlock + k] <= p.dataEnd
  {
    var previous: nat :| PakReader.EntryOk(e, previous, e.firstBlock, p.sizes, p.dataEnd);
    var mine := p.sizes[e.firstBlock..e.firstBlock + e.blockCount];
    assert PakReader.BlockSizeAt(e, p.sizes, e.firstBlock, k);
    PrefixAtMostAll(mine, k + 1);
    assert mine[..k + 1] == p.sizes[e.firstBlock..e.firstBlock + k + 1];
    assert mine[..k + 1][..k] == p.sizes[e.firstBlock..e.firstBlock + k];
    PieceBounds(e.rawSize, k);
  }

  lemma PieceBounds(n: nat, k: nat)
    requires k < AssetBlockCount(n)
    ensures 0 < PieceLength(n, ASSET_BLOCK, k) <= ASSET_BLOCK
  {
  }

  /// The pak blocks that cover a range start in the blob region.
  lemma BlockStarts(start: nat, size: nat, b: nat)
    requires size > 0 && HEADER_BLOCK <= start
    requires (start - HEADER_BLOCK) / PAK_BLOCK <= b <= (start + size - 1 - HEADER_BLOCK) / PAK_BLOCK
    ensures HEADER_BLOCK + b * PAK_BLOCK < start + size
  {
  }

  // -- The loop of decode -------------------------------------------------------------------------

  ghost function Appended(done: Bytes, more: Option<Bytes>): Option<Bytes> {
    if more.None? then None else Some(done + more.value)
  }

  lemma AppendedTwice(done: Bytes, piece: Bytes, more: Option<Bytes>)
    ensures Appended(done, Appended(piece, more)) == Appended(done + piece, more)
  {
    if more.Some? { Assoc(done, piece, more.value); }
  }

  lemma AppendedNothing(done: Bytes)
    ensures Appended(done, Some([])) == Some(done) && Appended(done, None) == None
  {
    assert done + [] == done;
  }

  lemma AppendedToNone(more: Option<Bytes>)
    ensures Appended([], more) == more
  {
    if more.Some? { assert [] + more.value == more.value; }
  }

  lemma DecodeNone(z: Zstd, h: Hashes, p: PakReader.Pak, e: Entry, rel: nat)
    requires p.dataEnd <= |p.file|
    ensures PakReader.DecodeFrom(z, h, p, e, e.blockCount, rel) == Some([])
  {
  }

  lemma DecodeOne(z: Zstd, h: Hashes, p: PakReader.Pak, e: Entry, k: nat, rel: nat)
    requires k < e.blockCount && p.dataEnd <= |p.file| && HEADER_BLOCK <= e.offset
    requires e.firstBlock + k < |p.sizes| && p.sizes[e.firstBlock + k] > 0
    requires e.offset + rel + p.sizes[e.firstBlock + k] <= p.dataEnd
    ensures var stored := p.sizes[e.firstBlock + k]; var bytes := PakReader.Fetch(h, p, e.offset + rel, stored);
      PakReader.DecodeFrom(z, h, p, e, k, rel) ==
      if bytes.None? then None
      else
        var piece := PakReader.DecodedBlock(z, e.codec, bytes.value, PieceLength(e.rawSize, ASSET_BLOCK, k));
        if piece.None? then None
        else Appended(piece.value, PakReader.DecodeFrom(z, h, p, e, k + 1, rel + stored))
  {
  }
}
