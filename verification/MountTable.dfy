/// Paks overlaid by asset id, later mounts on top (engine/asset/src/mount_table.cpp).
module MountTables {
  import opened ByteStrings
  import opened Options
  import opened PakFormat
  import opened PakReader
  import opened PakRoundTrip
  import opened PakWriter

  type MountId = nat

  /// A mounted pak; two mounts of one reader have the same handle.
  datatype Mounted = Mounted(id: MountId, handle: nat, platform: nat, pak: Pak)

  datatype Slot = Slot(mountIndex: nat, entryIndex: nat)

  datatype MountError = AlreadyMounted | OtherPlatform

  /// What opening a pak guarantees.
  predicate Usable(p: Pak) {
    IdsAscending(p.entries) && p.dataEnd <= |p.file|
  }

  /// The mounts from the bottom up, and the id of the next one.
  datatype Table = Table(mounts: seq<Mounted>, nextId: MountId)

  datatype Op =
    | MountPak(handle: nat, platform: nat, pak: Pak)
    | UnmountPak(id: MountId)

  function Refusal(t: Table, handle: nat, platform: nat): Option<MountError> {
    if exists k :: 0 <= k < |t.mounts| && t.mounts[k].handle == handle then Some(AlreadyMounted)
    else if t.mounts != [] && platform != t.mounts[0].platform then Some(OtherPlatform)
    else None
  }

  /// Without the first mount of this id.
  function Without(mounts: seq<Mounted>, id: MountId): (rest: seq<Mounted>)
    ensures forall m :: m in rest ==> m in mounts
  {
    if mounts == [] then []
    else if mounts[0].id == id then mounts[1..]
    else [mounts[0]] + Without(mounts[1..], id)
  }

  function Do(t: Table, op: Op): Table {
    match op
    case MountPak(handle, platform, pak) =>
      if Refusal(t, handle, platform).Some? then t
      else Table(t.mounts + [Mounted(t.nextId, handle, platform, pak)], t.nextId + 1)
    case UnmountPak(id) => t.(mounts := Without(t.mounts, id))
  }

  /// Reads from the topmost pak that has the asset.
  function TopRead(z: Zstd, h: Hashes, mounts: seq<Mounted>, id: AssetId): Result<Bytes>
    requires forall m :: m in mounts ==> Usable(m.pak)
  {
    if mounts == [] then Err(NotFound)
    else
      var last := mounts[|mounts| - 1];
      assert last in mounts && Usable(last.pak);
      if Has(last, id) then Read(z, h, last.pak, id) else TopRead(z, h, mounts[..|mounts| - 1], id)
  }

  predicate Lists(m: Mounted, id: AssetId, i: nat) {
    i < |m.pak.entries| && m.pak.entries[i].id == id
  }

  predicate Has(m: Mounted, id: AssetId) {
    exists i :: 0 <= i < |m.pak.entries| && Lists(m, id, i)
  }

  /// The slot points at the asset in the last of the first n mounts that has it.
  ghost predicate IsTopmost(mounts: seq<Mounted>, n: nat, id: AssetId, slot: Slot) {
    && slot.mountIndex < n <= |mounts| && Lists(mounts[slot.mountIndex], id, slot.entryIndex)
    && forall k :: slot.mountIndex < k < n ==> !Has(mounts[k], id)
  }

  ghost predicate Indexes(index: map<AssetId, Slot>, mounts: seq<Mounted>, n: nat) {
    && n <= |mounts|
    && (forall id :: id in index ==> IsTopmost(mounts, n, id, index[id]))
    && forall id, k :: 0 <= k < n && Has(mounts[k], id) ==> id in index
  }

  predicate ListedBelow(m: Mounted, id: AssetId, n: nat) {
    exists k :: 0 <= k < n && Lists(m, id, k)
  }

  predicate OverlaidAt(index: map<AssetId, Slot>, before: map<AssetId, Slot>, m: Mounted, mountIndex: nat, n: nat,
                       id: AssetId)
  {
    && (id in index <==> id in before || ListedBelow(m, id, n))
    && (id in index ==>
          if ListedBelow(m, id, n) then index[id].mountIndex == mountIndex && Lists(m, id, index[id].entryIndex)
          else id in before && index[id] == before[id])
  }

  /// The first n entries of a mount replaced those that were indexed before it.
  ghost predicate Overlaid(index: map<AssetId, Slot>, before: map<AssetId, Slot>, m: Mounted, mountIndex: nat, n: nat) {
    forall id :: OverlaidAt(index, before, m, mountIndex, n, id)
  }

  lemma OverlaidMore(index: map<AssetId, Slot>, before: map<AssetId, Slot>, m: Mounted, mountIndex: nat, i: nat)
    requires Overlaid(index, before, m, mountIndex, i) && i < |m.pak.entries|
    ensures Overlaid(index[m.pak.entries[i].id := Slot(mountIndex, i)], before, m, mountIndex, i + 1)
  {
    var entry := m.pak.entries[i].id;
    var more, n := index[entry := Slot(mountIndex, i)], i + 1;
    forall id ensures OverlaidAt(more, before, m, mountIndex, n, id) {
      assert OverlaidAt(index, before, m, mountIndex, i, id);
      assert id == entry ==> Lists(m, id, i);
    }
  }

  lemma OverlaidIndexes(index: map<AssetId, Slot>, before: map<AssetId, Slot>, mounts: seq<Mounted>, mountIndex: nat)
    requires mountIndex < |mounts| && Indexes(before, mounts, mountIndex)
    requires Overlaid(index, before, mounts[mountIndex], mountIndex, |mounts[mountIndex].pak.entries|)
    ensures Indexes(index, mounts, mountIndex + 1)
  {
    var m, n := mounts[mountIndex], |mounts[mountIndex].pak.entries|;
    forall id ensures Has(m, id) <==> ListedBelow(m, id, n) { }
    forall id | id in index ensures IsTopmost(mounts, mountIndex + 1, id, index[id]) {
      assert OverlaidAt(index, before, m, mountIndex, n, id);
    }
    forall id, k | 0 <= k < mountIndex + 1 && Has(mounts[k], id) ensures id in index {
      assert OverlaidAt(index, before, m, mountIndex, n, id);
    }
  }

  /// Ids and handles are told apart, and all paks are of one platform.
  predicate MountsOk(t: Table) {
    && (forall m :: m in t.mounts ==> Usable(m.pak) && m.id < t.nextId)
    && (forall i, j :: 0 <= i < j < |t.mounts| ==>
          t.mounts[i].id < t.mounts[j].id && t.mounts[i].handle != t.mounts[j].handle)
    && forall m :: m in t.mounts ==> m.platform == t.mounts[0].platform
  }

  class PakMountTable {
    var m_mounts: seq<Mounted>
    var m_index: map<AssetId, Slot>
    var m_nextId: MountId

    ghost predicate Valid()
      reads this
    {
      Indexes(m_index, m_mounts, |m_mounts|) && MountsOk(Contents())
    }

    ghost function Contents(): Table
      reads this
    {
      Table(m_mounts, m_nextId)
    }

    constructor ()
      ensures Valid() && Contents() == Table([], 1)
    {
      m_mounts, m_index, m_nextId := [], map[], 1;
    }

    /// Puts a pak on top.
    method Mount(handle: nat, platform: nat, pak: Pak) returns (result: Option<MountId>, error: Option<MountError>)
      requires Valid() && Usable(pak)
      modifies this
      ensures Valid() && Contents() == Do(old(Contents()), MountPak(handle, platform, pak))
      ensures error == Refusal(old(Contents()), handle, platform)
      ensures result == if error.None? then Some(old(m_nextId)) else None
    {
      hide MountsOk, Indexes, Refusal;
      error := CheckMount(handle, platform);
      if error.Some? {
        return None, error;
      }
      MountMore(Contents(), handle, platform, pak);
      IndexesLonger(m_index, m_mounts, m_mounts + [Mounted(m_nextId, handle, platform, pak)]);
      var id := m_nextId;
      m_nextId := m_nextId + 1;
      m_mounts := m_mounts + [Mounted(id, handle, platform, pak)];
      IndexMount(|m_mounts| - 1);
      return Some(id), None;
    }

    /// Why a pak may not be mounted.
    method CheckMount(handle: nat, platform: nat) returns (error: Option<MountError>)
      ensures error == Refusal(Contents(), handle, platform)
    {
      for i := 0 to |m_mounts|
        invariant forall k :: 0 <= k < i ==> m_mounts[k].handle != handle
      {
        if m_mounts[i].handle == handle {
          return Some(AlreadyMounted);
        }
      }
      return if m_mounts != [] && platform != m_mounts[0].platform then Some(OtherPlatform) else None;
    }

    /// Takes a pak out and indexes the others again.
    method Unmount(id: MountId) returns (found: bool)
      requires Valid()
      modifies this
      ensures Valid() && Contents() == Do(old(Contents()), UnmountPak(id))
      ensures found <==> exists m :: m in old(m_mounts) && m.id == id
    {
      hide MountsOk, Without, Indexes;
      var at := FindMount(id);
      if at == |m_mounts| {
        return false;
      }
      RestIsFine(Contents(), at);
      m_mounts := m_mounts[..at] + m_mounts[at + 1..];
      IndexAll();
      return true;
    }

    /// The position of the first mount of this id, or the number of mounts.
    method FindMount(id: MountId) returns (at: nat)
      ensures at <= |m_mounts| && (at < |m_mounts| <==> exists m :: m in m_mounts && m.id == id)
      ensures Without(m_mounts, id) == if at < |m_mounts| then m_mounts[..at] + m_mounts[at + 1..] else m_mounts
    {
      hide Without;
      at := 0;
      while at < |m_mounts| && m_mounts[at].id != id
        invariant at <= |m_mounts| && forall k :: 0 <= k < at ==> m_mounts[k].id != id
      {
        at := at + 1;
      }
      WithoutAt(m_mounts, id, at);
      if at < |m_mounts| { assert m_mounts[at] in m_mounts; }
    }

    /// Indexes all mounts, from the bottom up.
    method IndexAll()
      modifies this`m_index
      ensures Indexes(m_index, m_mounts, |m_mounts|)
    {
      m_index := map[];
      for i := 0 to |m_mounts|
        invariant Indexes(m_index, m_mounts, i)
      {
        IndexMount(i);
      }
    }

    /// Lets the entries of one mount replace those of the mounts before it.
    method IndexMount(mountIndex: nat)
      requires mountIndex < |m_mounts| && Indexes(m_index, m_mounts, mountIndex)
      modifies this`m_index
      ensures Indexes(m_index, m_mounts, mountIndex + 1)
    {
      var entries := m_mounts[mountIndex].pak.entries;
      ghost var before := m_index;
      for i := 0 to |entries|
        invariant Overlaid(m_index, before, m_mounts[mountIndex], mountIndex, i)
      {
        OverlaidMore(m_index, before, m_mounts[mountIndex], mountIndex, i);
        m_index := m_index[entries[i].id := Slot(mountIndex, i)];
      }
      OverlaidIndexes(m_index, before, m_mounts, mountIndex);
    }

    /// The asset in the topmost pak that has it.
    method Find(id: AssetId) returns (location: Option<(Mounted, Entry)>)
      requires Valid()
      ensures location.Some? <==> exists m :: m in m_mounts && Has(m, id)
      ensures location.Some? ==>
                exists k :: 0 <= k < |m_mounts| && location.value.0 == m_mounts[k]
                            && PakReader.Find(m_mounts[k].pak, id) == Some(location.value.1) && Has(m_mounts[k], id)
                            && forall later :: k < later < |m_mounts| ==> !Has(m_mounts[later], id)
    {
      if id !in m_index {
        return None;
      }
      var slot := m_index[id];
      var m := m_mounts[slot.mountIndex];
      assert IsTopmost(m_mounts, |m_mounts|, id, slot);
      FindIsExact(m.pak, id);
      assert m in m_mounts && Has(m, id);
      return Some((m, m.pak.entries[slot.entryIndex]));
    }

    /// Reads the asset from the topmost pak that has it.
    method ReadAsset(z: Zstd, h: Hashes, id: AssetId) returns (result: Result<Bytes>)
      requires Valid()
      ensures (forall m :: m in m_mounts ==> Usable(m.pak)) && result == TopRead(z, h, m_mounts, id)
    {
      var location := Find(id);
      if location.None? {
        forall k | 0 <= k < |m_mounts| ensures !Has(m_mounts[k], id) { assert m_mounts[k] in m_mounts; }
        TopReadNone(z, h, m_mounts, id);
        return Err(NotFound);
      }
      var (m, e) := location.value;
      ghost var k :| 0 <= k < |m_mounts| && m == m_mounts[k] && PakReader.Find(m_mounts[k].pak, id) == Some(e)
                     && Has(m_mounts[k], id) && forall later :: k < later < |m_mounts| ==> !Has(m_mounts[later], id);
      TopReadIs(z, h, m_mounts, id, k);
      var out := DecodeFrom(z, h, m.pak, e, 0, 0);
      if out.None? || h.hashLow(out.value) != e.hashLow || h.hashHigh(out.value) != e.hashHigh {
        return Err(Corrupt);
      }
      return Ok(out.value);
    }
  }

  lemma {:induction false} WithoutAt(mounts: seq<Mounted>, id: MountId, at: nat)
    requires at <= |mounts| && forall k :: 0 <= k < at ==> mounts[k].id != id
    requires at < |mounts| ==> mounts[at].id == id
    ensures Without(mounts, id) == if at < |mounts| then mounts[..at] + mounts[at + 1..] else mounts
  {
    if at > 0 {
      WithoutAt(mounts[1..], id, at - 1);
      if at < |mounts| {
        assert mounts[..at] + mounts[at + 1..] == [mounts[0]] + (mounts[1..][..at - 1] + mounts[1..][at..]);
      }
    }
  }

  lemma {:induction false} TopReadNone(z: Zstd, h: Hashes, mounts: seq<Mounted>, id: AssetId)
    requires forall m :: m in mounts ==> Usable(m.pak)
    requires forall k :: 0 <= k < |mounts| ==> !Has(mounts[k], id)
    ensures TopRead(z, h, mounts, id) == Err(NotFound)
  {
    if mounts != [] { TopReadNone(z, h, mounts[..|mounts| - 1], id); }
  }

  /// The k-th mount is the last one that has the asset.
  predicate IsTop(mounts: seq<Mounted>, id: AssetId, k: nat) {
    k < |mounts| && Has(mounts[k], id) && forall later :: k < later < |mounts| ==> !Has(mounts[later], id)
  }

  lemma {:induction false} TopReadIs(z: Zstd, h: Hashes, mounts: seq<Mounted>, id: AssetId, k: nat)
    requires (forall m :: m in mounts ==> Usable(m.pak)) && IsTop(mounts, id, k)
    ensures mounts[k] in mounts && TopRead(z, h, mounts, id) == Read(z, h, mounts[k].pak, id)
  {
    if k < |mounts| - 1 {
      TopReadIs(z, h, mounts[..|mounts| - 1], id, k);
    }
  }

  lemma IndexesLonger(index: map<AssetId, Slot>, mounts: seq<Mounted>, more: seq<Mounted>)
    requires Indexes(index, mounts, |mounts|) && mounts <= more
    ensures Indexes(index, more, |mounts|)
  {
    forall id | id in index ensures IsTopmost(more, |mounts|, id, index[id]) {
      assert IsTopmost(mounts, |mounts|, id, index[id]);
    }
  }

  lemma MountMore(t: Table, handle: nat, platform: nat, pak: Pak)
    requires MountsOk(t) && Usable(pak) && Refusal(t, handle, platform).None?
    ensures MountsOk(Do(t, MountPak(handle, platform, pak)))
    ensures Do(t, MountPak(handle, platform, pak))
            == Table(t.mounts + [Mounted(t.nextId, handle, platform, pak)], t.nextId + 1)
  {
    hide Usable;
    assert forall k :: 0 <= k < |t.mounts| ==> t.mounts[k] in t.mounts;
  }

  lemma RestIsPart(mounts: seq<Mounted>, at: nat)
    requires at < |mounts|
    ensures var rest := mounts[..at] + mounts[at + 1..];
      && (forall i :: 0 <= i < |rest| ==> rest[i] == mounts[if i < at then i else i + 1])
      && forall m :: m in rest ==> m in mounts
  {
  }

  lemma RestIsFine(t: Table, at: nat)
    requires MountsOk(t) && at < |t.mounts|
    ensures MountsOk(t.(mounts := t.mounts[..at] + t.mounts[at + 1..]))
  {
    hide Usable;
    var rest := t.mounts[..at] + t.mounts[at + 1..];
    RestIsPart(t.mounts, at);
    if rest != [] { assert rest[0] in t.mounts; }
  }

  /// A mounted pak has exactly the assets that were added to it and reads back what was added.
  lemma MountedReads(z: Zstd, h: Hashes, o: PakOptions, assets: Assets, blobOrder: seq<AssetId>, m: Mounted,
                     id: AssetId)
    requires Writable(z, h, o, assets, blobOrder)
    requires Parse(h, Build(h, o, assets, blobOrder), Some(o.platform)) == Ok(m.pak)
    ensures m.pak.dataEnd <= |m.pak.file| && IdsAscending(m.pak.entries)
    ensures Has(m, id) <==> id in assets
    ensures id in assets ==> Read(z, h, m.pak, id) == Ok(assets[id].cooked)
  {
    hide Build, Parse, DecodeFrom;
    WhatIsWrittenIsRead(z, h, o, assets, blobOrder, id);
    ParsedIdsAscend(h, Build(h, o, assets, blobOrder), Some(o.platform));
    FindIsExact(m.pak, id);
    if PakReader.Find(m.pak, id).Some? {
      var i :| 0 <= i < |m.pak.entries| && m.pak.entries[i].id == id;
      assert Lists(m, id, i);
    }
    assert Has(m, id) ==> PakReader.Find(m.pak, id).Some?;
  }

  // -- Over any mounts and unmounts ------------------------------------------------------------

  /// The table after the operations, from an empty one.
  function Run(ops: seq<Op>): Table {
    if ops == [] then Table([], 1) else Do(Run(ops[..|ops| - 1]), ops[|ops| - 1])
  }

  /// The k-th operation put a pak on top.
  predicate Succeeds(ops: seq<Op>, k: nat)
    requires k < |ops|
  {
    ops[k].MountPak? && Refusal(Run(ops[..k]), ops[k].handle, ops[k].platform).None?
  }

  function IdOf(ops: seq<Op>, k: nat): MountId
    requires k < |ops|
  {
    Run(ops[..k]).nextId
  }

  function MountOf(ops: seq<Op>, k: nat): Mounted
    requires k < |ops| && ops[k].MountPak?
  {
    Mounted(IdOf(ops, k), ops[k].handle, ops[k].platform, ops[k].pak)
  }

  /// The k-th operation mounted a pak that no later one took out.
  predicate StillMounted(ops: seq<Op>, k: nat) {
    k < |ops| && Succeeds(ops, k) && forall j :: k < j < |ops| ==> ops[j] != UnmountPak(IdOf(ops, k))
  }

  predicate PaksUsable(ops: seq<Op>) {
    forall k :: 0 <= k < |ops| && ops[k].MountPak? ==> Usable(ops[k].pak)
  }

  predicate IdsOk(t: Table) {
    (forall m :: m in t.mounts ==> m.id < t.nextId) && IdsAscend(t.mounts)
  }

  predicate IdsAscend(mounts: seq<Mounted>) {
    forall i, j :: 0 <= i < j < |mounts| ==> mounts[i].id < mounts[j].id
  }

  lemma {:induction false} WithoutKeeps(mounts: seq<Mounted>, id: MountId, m: Mounted)
    requires IdsAscend(mounts)
    ensures m in Without(mounts, id) <==> m in mounts && m.id != id
  {
    if mounts != [] {
      assert mounts == [mounts[0]] + mounts[1..];
      if mounts[0].id == id {
        if m in mounts[1..] {
          var k :| 0 < k < |mounts| && mounts[k] == m;
          assert mounts[0].id < mounts[k].id;
        }
      } else {
        WithoutKeeps(mounts[1..], id, m);
      }
    }
  }

  lemma {:induction false} WithoutAscends(mounts: seq<Mounted>, id: MountId)
    requires IdsAscend(mounts)
    ensures IdsAscend(Without(mounts, id))
  {
    if mounts != [] && mounts[0].id != id {
      WithoutAscends(mounts[1..], id);
      var rest := Without(mounts[1..], id);
      forall k | 0 <= k < |rest| ensures mounts[0].id < rest[k].id {
        assert rest[k] in mounts[1..];
        var j :| 0 < j < |mounts| && mounts[j] == rest[k];
      }
    }
  }

  lemma DoIdsOk(t: Table, op: Op)
    requires IdsOk(t)
    ensures IdsOk(Do(t, op))
  {
    if op.UnmountPak? { WithoutAscends(t.mounts, op.id); }
  }

  lemma {:induction false} RunIdsOk(ops: seq<Op>)
    ensures IdsOk(Run(ops))
  {
    hide IdsOk, Do;
    if ops == [] {
      NothingMounted();
    } else {
      RunIdsOk(ops[..|ops| - 1]);
      DoIdsOk(Run(ops[..|ops| - 1]), ops[|ops| - 1]);
    }
  }

  lemma NothingMounted()
    ensures IdsOk(Table([], 1))
  {
  }

  /// A mount's number only depends on what came before it, and numbers only grow.
  lemma {:induction false} IdsGrow(ops: seq<Op>, j: nat, k: nat)
    requires j <= k <= |ops|
    ensures Run(ops[..j]).nextId <= Run(ops[..k]).nextId
    ensures j < k && Succeeds(ops, j) ==> Run(ops[..j]).nextId < Run(ops[..k]).nextId
  {
    if j < k {
      assert ops[..k][..k - 1] == ops[..k - 1];
      IdsGrow(ops, j, k - 1);
    }
  }

  lemma StillMountedBefore(ops: seq<Op>, k: nat)
    requires ops != [] && k < |ops| - 1
    ensures var front := ops[..|ops| - 1];
      && Succeeds(front, k) == Succeeds(ops, k) && IdOf(front, k) == IdOf(ops, k)
      && (StillMounted(ops, k) <==> StillMounted(front, k) && ops[|ops| - 1] != UnmountPak(IdOf(ops, k)))
  {
    assert ops[..|ops| - 1][..k] == ops[..k];
  }

  /// A mount of the table was there before or is the operation's own.
  lemma DoHolds(t: Table, op: Op, m: Mounted)
    requires IdsOk(t)
    ensures m in Do(t, op).mounts <==>
            if op.UnmountPak? then m in t.mounts && m.id != op.id
            else m in t.mounts || (Refusal(t, op.handle, op.platform).None?
                                   && m == Mounted(t.nextId, op.handle, op.platform, op.pak))
  {
    if op.UnmountPak? { WithoutKeeps(t.mounts, op.id, m); }
  }

  ghost predicate IsStillMounted(ops: seq<Op>, m: Mounted) {
    exists k: nat :: StillMounted(ops, k) && m == MountOf(ops, k)
  }

  lemma StillMountedSnoc(ops: seq<Op>, m: Mounted)
    requires ops != []
    ensures var n := |ops| - 1;
      IsStillMounted(ops, m) <==>
        (IsStillMounted(ops[..n], m) && ops[n] != UnmountPak(m.id)) || (Succeeds(ops, n) && m == MountOf(ops, n))
  {
    hide Run, Refusal;
    var front, n := ops[..|ops| - 1], |ops| - 1;
    if IsStillMounted(ops, m) {
      var k: nat :| StillMounted(ops, k) && m == MountOf(ops, k);
      if k < n {
        StillMountedBefore(ops, k);
        assert StillMounted(front, k) && m == MountOf(front, k);
      }
    }
    if IsStillMounted(front, m) && ops[n] != UnmountPak(m.id) {
      var k: nat :| StillMounted(front, k) && m == MountOf(front, k);
      StillMountedBefore(ops, k);
      assert StillMounted(ops, k) && m == MountOf(ops, k);
    }
    if Succeeds(ops, n) && m == MountOf(ops, n) {
      assert StillMounted(ops, n);
    }
  }

  /// The table holds exactly the mounts that no later operation took out.
  lemma {:induction false} HoldsStillMounted(ops: seq<Op>, m: Mounted)
    ensures m in Run(ops).mounts <==> IsStillMounted(ops, m)
  {
    if ops == [] {
      hide Succeeds;
    } else {
      var front, n := ops[..|ops| - 1], |ops| - 1;
      HoldsStillMounted(front, m);
      RunIdsOk(front);
      DoHolds(Run(front), ops[n], m);
      StillMountedSnoc(ops, m);
      hide Do, IdsOk, Refusal, IsStillMounted;
    }
  }

  lemma {:induction false} RunUsable(ops: seq<Op>)
    requires PaksUsable(ops)
    ensures forall m :: m in Run(ops).mounts ==> Usable(m.pak)
  {
    forall m | m in Run(ops).mounts ensures Usable(m.pak) {
      HoldsStillMounted(ops, m);
    }
  }

  /// After any mounts and unmounts, reading an asset gives what the latest pak that is still mounted and has it holds.
  lemma LatestMountWins(z: Zstd, h: Hashes, ops: seq<Op>, k: nat, id: AssetId)
    requires PaksUsable(ops) && StillMounted(ops, k) && Has(MountOf(ops, k), id)
    requires forall j: nat :: k < j && StillMounted(ops, j) ==> !Has(MountOf(ops, j), id)
    ensures forall m :: m in Run(ops).mounts ==> Usable(m.pak)
    ensures TopRead(z, h, Run(ops).mounts, id) == Read(z, h, ops[k].pak, id)
  {
    var mounts, m := Run(ops).mounts, MountOf(ops, k);
    RunUsable(ops);
    RunIdsOk(ops);
    HoldsStillMounted(ops, m);
    var at :| 0 <= at < |mounts| && mounts[at] == m;
    forall later | at < later < |mounts| ensures !Has(mounts[later], id) {
      HoldsStillMounted(ops, mounts[later]);
      var j: nat :| StillMounted(ops, j) && mounts[later] == MountOf(ops, j);
      if j <= k { IdsGrow(ops, j, k); }
    }
    TopReadIs(z, h, mounts, id, at);
  }

  /// Paks written here: after any mounts and unmounts, reading an asset gives the bytes added to the latest pak that is
  /// still mounted and has it.
  lemma AddedToLatestIsRead(z: Zstd, h: Hashes, o: PakOptions, assets: Assets, blobOrder: seq<AssetId>, ops: seq<Op>,
                            k: nat,
                            id: AssetId)
    requires Writable(z, h, o, assets, blobOrder) && id in assets
    requires PaksUsable(ops) && StillMounted(ops, k)
    requires Parse(h, Build(h, o, assets, blobOrder), Some(o.platform)) == Ok(ops[k].pak)
    requires forall j: nat :: k < j && StillMounted(ops, j) ==> !Has(MountOf(ops, j), id)
    ensures forall m :: m in Run(ops).mounts ==> Usable(m.pak)
    ensures TopRead(z, h, Run(ops).mounts, id) == Ok(assets[id].cooked)
  {
    hide Build, Parse, Read, Writable, TopRead, Run;
    MountedReads(z, h, o, assets, blobOrder, MountOf(ops, k), id);
    LatestMountWins(z, h, ops, k, id);
  }

  /// An asset that no pak still mounted has is not found.
  lemma NobodyHasIt(z: Zstd, h: Hashes, ops: seq<Op>, id: AssetId)
    requires PaksUsable(ops) && forall k: nat :: StillMounted(ops, k) ==> !Has(MountOf(ops, k), id)
    ensures forall m :: m in Run(ops).mounts ==> Usable(m.pak)
    ensures TopRead(z, h, Run(ops).mounts, id) == Err(NotFound)
  {
    RunUsable(ops);
    var mounts := Run(ops).mounts;
    forall k | 0 <= k < |mounts| ensures !Has(mounts[k], id) {
      HoldsStillMounted(ops, mounts[k]);
    }
    TopReadNone(z, h, mounts, id);
  }

  predicate OnePlatform(mounts: seq<Mounted>) {
    forall m, n :: m in mounts && n in mounts ==> m.platform == n.platform
  }

  lemma {:induction false} RunOnePlatform(ops: seq<Op>)
    ensures OnePlatform(Run(ops).mounts)
  {
    if ops != [] {
      var t, op := Run(ops[..|ops| - 1]), ops[|ops| - 1];
      RunOnePlatform(ops[..|ops| - 1]);
      if op.MountPak? && t.mounts != [] { assert t.mounts[0] in t.mounts; }
      assert forall m :: m in Do(t, op).mounts ==>
        m in t.mounts || (op.MountPak? && m == Mounted(t.nextId, op.handle, op.platform, op.pak));
    }
  }

  /// After any mounts and unmounts, a mount is refused exactly when its reader is still mounted, or else when some pak
  /// still mounted is of another platform.
  lemma MountRefusedIff(ops: seq<Op>, handle: nat, platform: nat)
    ensures Refusal(Run(ops), handle, platform)
            == if exists k: nat :: StillMounted(ops, k) && ops[k].handle == handle then Some(AlreadyMounted)
               else if exists k: nat :: StillMounted(ops, k) && ops[k].platform != platform then Some(OtherPlatform)
               else None
  {
    var mounts := Run(ops).mounts;
    RunOnePlatform(ops);
    forall k: nat | StillMounted(ops, k) ensures MountOf(ops, k) in mounts {
      HoldsStillMounted(ops, MountOf(ops, k));
    }
    forall i | 0 <= i < |mounts|
      ensures exists k: nat :: StillMounted(ops, k) && ops[k].handle == mounts[i].handle
                               && ops[k].platform == mounts[i].platform
    {
      HoldsStillMounted(ops, mounts[i]);
      var k: nat :| StillMounted(ops, k) && mounts[i] == MountOf(ops, k);
    }
    hide Run, StillMounted;
    if mounts != [] { assert mounts[0] in mounts; }
  }
}
