/// What each fence operation does to the store, as functions on values
/// (engine/authority/src/memory_fence.cpp). The tree helpers are specified by what they mean:
/// a subtree is the set of rows whose parent chain reaches the member, and its height is the
/// longest such chain among those the program follows to their end.
module FenceSpec {
  import opened AuthorityTypes
  import opened Naturals
  import opened OrderedSets

  // -- Trees -------------------------------------------------------------------------------

  /// The n-th AG on the parent chain of `id` (NO_AG past its end).
  ghost function Ancestor(rows: Rows, id: AgId, n: nat): AgId {
    if n == 0 then id else
      var p := Ancestor(rows, id, n - 1);
      if p in rows then rows[p].parent else NO_AG
  }

  ghost predicate Reaches(rows: Rows, id: AgId, member: AgId) {
    exists n: nat :: Ancestor(rows, id, n) == member
  }

  /// The rows whose parent chain reaches `member`, itself included.
  ghost function Descendants(rows: Rows, member: AgId): set<AgId> {
    set k | k in rows && Reaches(rows, k, member)
  }

  /// How many rows of a parent chain the program follows.
  const WALK_LIMIT: nat := 64

  /// Some chain of `h` rows ends at `member`, and none that the program follows to its end is longer.
  ghost predicate IsHeight(rows: Rows, member: AgId, h: nat) {
    && (exists k, n: nat :: k in rows && n < WALK_LIMIT && Ancestor(rows, k, n) == member && n + 1 == h)
    && (forall k, n: nat :: k in rows && n < WALK_LIMIT && Ancestor(rows, k, n) == member ==> n + 1 <= h)
  }

  /// Some chain of more than `limit` rows, followed to its end, ends at `member`.
  ghost predicate HigherThan(rows: Rows, member: AgId, limit: int) {
    exists k, n: nat :: k in rows && n < WALK_LIMIT && Ancestor(rows, k, n) == member && n + 1 > limit
  }

  function Tree(rows: Rows, root: AgId): set<AgId> {
    set k | k in rows && rows[k].root == root
  }

  predicate SameLine(a: FenceRow, b: FenceRow) {
    a.epoch == b.epoch && a.state == b.state && a.owner == b.owner
  }

  ghost function CollectStatus(rows: Rows, root: AgId): FenceStatus {
    if root !in rows then NotFound
    else if rows[root].root != root then NotRoot
    else if forall k :: k in Tree(rows, root) ==> SameLine(rows[k], rows[root]) then Ok
    else TreeMismatch
  }

  /// The epoch collectTree reports: it is left at 0 when the root was not found.
  ghost function CollectEpoch(rows: Rows, root: AgId): Epoch {
    if CollectStatus(rows, root) in {Ok, TreeMismatch} then rows[root].epoch else 0
  }

  // -- Moving rows and emitting events -------------------------------------------------------

  function Moved(rows: Rows, ids: set<AgId>, next: Epoch, owner: Owner, state: RowState): Rows {
    map k | k in rows ::
      if k in ids then rows[k].(epoch := next, owner := owner, state := state) else rows[k]
  }

  predicate Supersedes(cause: AdvanceCause, prev: Owner, owner: Owner) {
    cause in {Load, Takeover, Recovery} && prev.IsValid() && prev.cell != owner.cell
  }

  function Emit(s: FenceState, ag: AgId, epoch: Epoch, prev: Owner, owner: Owner, cause: AdvanceCause): FenceState {
    s.(events := s.events + [FenceEvent(ag, epoch, prev, owner, cause)],
       released := if Supersedes(cause, prev, owner)
                   then s.released + [ReleasedNotice(prev.cell, ag, epoch)] else s.released)
  }

  /// Moves the whole tree of `root` to (epoch, owner, state) and logs it.
  function MoveTree(s: FenceState, root: AgId, epoch: Epoch, owner: Owner, state: RowState, cause: AdvanceCause)
    : FenceState
    requires root in s.rows
  {
    Emit(s.(rows := Moved(s.rows, Tree(s.rows, root), epoch, owner, state)),
         root, epoch, s.rows[root].owner, owner, cause)
  }

  // -- Operations ----------------------------------------------------------------------------

  function Create(s: FenceState, ag: AgId, epoch: Epoch): (FenceState, bool) {
    if ag == NO_AG || ag in s.rows then (s, false)
    else (s.(rows := s.rows[ag := FenceRow(ag, ag, NO_AG, epoch, NOBODY, Dormant, 0)]), true)
  }

  ghost function Advance(s: FenceState, root: AgId, from: Epoch, next: Epoch, owner: Owner, cause: AdvanceCause)
    : (FenceState, FenceResult)
  {
    var status := CollectStatus(s.rows, root);
    if next != from + 1 || !owner.IsValid() || cause !in {Handoff, Load, Takeover, Abort} then
      (s, FenceResult(InvalidArgument, 0, NOBODY))
    else if status != Ok then (s, FenceResult(status, CollectEpoch(s.rows, root), NOBODY))
    else
      var head := s.rows[root];
      if head.epoch != from then (s, FenceResult(Stale, head.epoch, head.owner))
      else if cause == Load && head.state == Active then
        (s, FenceResult(NeedsTakeover, head.epoch, head.owner))
      else if cause in {Handoff, Abort} && head.state != Active then
        (s, FenceResult(Stale, head.epoch, head.owner))
      else (MoveTree(s, root, next, owner, Active, cause), FenceResult(Ok, next, head.owner))
  }

  function Parked(rows: Rows, ids: set<AgId>, seqNo: StreamSeq): Rows {
    map k | k in rows :: if k in ids then rows[k].(parkedSeq := seqNo) else rows[k]
  }

  ghost function ParkTree(s: FenceState, root: AgId, epoch: Epoch, owner: Owner, seqNo: StreamSeq)
    : (FenceState, FenceResult)
  {
    var status := CollectStatus(s.rows, root);
    if status != Ok then (s, FenceResult(status, CollectEpoch(s.rows, root), NOBODY))
    else
      var head := s.rows[root];
      if head.epoch != epoch || head.state != Active || head.owner.cell != owner.cell then
        (s, FenceResult(Stale, head.epoch, head.owner))
      else
        var t := MoveTree(s, root, epoch + 1, NOBODY, Dormant, Park);
        (t.(rows := Parked(t.rows, Tree(s.rows, root), seqNo)), FenceResult(Ok, epoch + 1, head.owner))
  }

  /// Gives the rows of `ids` the root `root`, and `member` the parent `parent`.
  function Rerooted(rows: Rows, ids: set<AgId>, root: AgId, member: AgId, parent: AgId): Rows {
    map k | k in rows ::
      var r := if k in ids then rows[k].(root := root) else rows[k];
      if k == member then r.(parent := parent) else r
  }

  ghost function JoinTrees(s: FenceState, member: AgId, em: Epoch, root: AgId, er: Epoch, owner: Owner)
    : (FenceState, FenceResult)
  {
    var ms, rs := CollectStatus(s.rows, member), CollectStatus(s.rows, root);
    if member == root || !owner.IsValid() then (s, FenceResult(InvalidArgument, 0, NOBODY))
    else if ms != Ok then (s, FenceResult(ms, CollectEpoch(s.rows, member), NOBODY))
    else if rs != Ok then (s, FenceResult(rs, CollectEpoch(s.rows, root), NOBODY))
    else
      var m, r := s.rows[member], s.rows[root];
      if m.epoch != em || r.epoch != er || m.state != Active || m.owner.cell != owner.cell
         || r.state != Active || r.owner.cell != owner.cell then
        (s, FenceResult(Stale, if m.epoch != em then m.epoch else r.epoch, r.owner))
      else if HigherThan(s.rows, member, s.maxTreeDepth - 1) then
        (s, FenceResult(InvalidArgument, r.epoch, r.owner))
      else
        var next := Max(em, er) + 1;
        var members := Tree(s.rows, member);
        var rows := Moved(Rerooted(s.rows, members, root, member, root),
                          members + Tree(s.rows, root), next, r.owner, Active);
        (Emit(Emit(s.(rows := rows), root, next, r.owner, r.owner, Join), member, next, r.owner, r.owner, Join),
         FenceResult(Ok, next, r.owner))
  }

  ghost function LeaveTree(s: FenceState, member: AgId, epoch: Epoch, owner: Owner): (FenceState, FenceResult) {
    if member !in s.rows then (s, FenceResult(NotFound, 0, NOBODY))
    else if s.rows[member].root == member then
      (s, FenceResult(InvalidArgument, s.rows[member].epoch, s.rows[member].owner))
    else
      var root := s.rows[member].root;
      var status := CollectStatus(s.rows, root);
      if status != Ok then (s, FenceResult(status, CollectEpoch(s.rows, root), NOBODY))
      else
        var head := s.rows[root];
        if head.epoch != epoch || head.state != Active || head.owner.cell != owner.cell then
          (s, FenceResult(Stale, head.epoch, head.owner))
        else
          var rows := Moved(Rerooted(s.rows, Descendants(s.rows, member), member, member, NO_AG),
                            Tree(s.rows, root), epoch + 1, head.owner, Active);
          (Emit(Emit(s.(rows := rows), root, epoch + 1, head.owner, head.owner, Leave),
                member, epoch + 1, head.owner, head.owner, Leave),
           FenceResult(Ok, epoch + 1, head.owner))
  }

  // -- Bulk operations -----------------------------------------------------------------------

  predicate AllIn(rows: Rows, list: seq<AgEpoch>) {
    forall i :: 0 <= i < |list| ==> list[i].ag in rows
  }

  /// Advances the listed roots' trees one after the other.
  function MoveEach(s: FenceState, list: seq<AgEpoch>, owner: Owner, cause: AdvanceCause): (t: FenceState)
    requires AllIn(s.rows, list)
    ensures t.rows.Keys == s.rows.Keys && t.maxTreeDepth == s.maxTreeDepth
  {
    if list == [] then s
    else
      var n := |list| - 1;
      MoveTree(MoveEach(s, list[..n], owner, cause), list[n].ag, list[n].epoch + 1, owner, Active, cause)
  }

  function Advanced(list: seq<AgEpoch>): (advanced: seq<AgEpoch>)
    ensures |advanced| == |list|
    ensures forall i :: 0 <= i < |list| ==> advanced[i] == AgEpoch(list[i].ag, list[i].epoch + 1)
  {
    if list == [] then []
    else
      var n := |list| - 1;
      Advanced(list[..n]) + [AgEpoch(list[n].ag, list[n].epoch + 1)]
  }

  predicate DistinctAt(list: seq<AgEpoch>, i: nat)
    requires i < |list|
  {
    forall j :: 0 <= j < i ==> list[j].ag != list[i].ag
  }

  /// Why the i-th listed root cannot advance (Ok when it can).
  ghost function ListedStatus(rows: Rows, list: seq<AgEpoch>, i: nat): FenceStatus
    requires i < |list|
  {
    var status := CollectStatus(rows, list[i].ag);
    if !DistinctAt(list, i) then InvalidArgument
    else if status != Ok then status
    else if rows[list[i].ag].epoch != list[i].epoch || rows[list[i].ag].state != Active then Stale
    else Ok
  }

  /// The first listed root that cannot advance decides the status of the whole call.
  ghost function FirstFailure(rows: Rows, list: seq<AgEpoch>): FenceStatus {
    if list == [] then Ok
    else
      var s := FirstFailure(rows, list[..|list| - 1]);
      if s != Ok then s else ListedStatus(rows, list, |list| - 1)
  }

  lemma FirstFailureOk(rows: Rows, list: seq<AgEpoch>)
    ensures FirstFailure(rows, list) == Ok <==>
            (forall i :: 0 <= i < |list| ==> ListedStatus(rows, list, i) == Ok)
  {
    if list != [] {
      var n := |list| - 1;
      var init := list[..n];
      FirstFailureOk(rows, init);
      assert forall i :: 0 <= i < n ==> ListedStatus(rows, init, i) == ListedStatus(rows, list, i);
    }
  }

  ghost function AdvanceMany(s: FenceState, list: seq<AgEpoch>, owner: Owner): (FenceState, BulkFenceResult) {
    var status := FirstFailure(s.rows, list);
    if list == [] || !owner.IsValid() then (s, BulkFenceResult(InvalidArgument, []))
    else if status != Ok then (s, BulkFenceResult(status, []))
    else
      FirstFailureOk(s.rows, list);
      assert forall i :: 0 <= i < |list| ==> ListedStatus(s.rows, list, i) == Ok && list[i].ag in s.rows;
      (MoveEach(s, list, owner, Handoff), BulkFenceResult(Ok, Advanced(list)))
  }

  /// The active roots owned under `region` at generation `gen` or older.
  function OwnedRoots(rows: Rows, region: RegionId, gen: LeaseGen): set<AgId> {
    set k | k in rows && rows[k].root == k && rows[k].state == Active
            && rows[k].owner.region == region && rows[k].owner.leaseGen <= gen
  }

  function RegionRoots(rows: Rows, region: RegionId): set<AgId> {
    set k | k in rows && rows[k].root == k && rows[k].state == Active && rows[k].owner.region == region
  }

  function AtCurrentEpoch(rows: Rows, ids: seq<AgId>): seq<AgEpoch>
    requires forall i :: 0 <= i < |ids| ==> ids[i] in rows
  {
    seq(|ids|, i requires 0 <= i < |ids| => AgEpoch(ids[i], rows[ids[i]].epoch))
  }

  /// Crash recovery. Trees whose rows disagree would be skipped; none exist (see FenceForest).
  ghost function AdvanceOwnedBy(s: FenceState, region: RegionId, gen: LeaseGen, owner: Owner)
    : (FenceState, BulkFenceResult)
  {
    if region == 0 || !owner.IsValid() then (s, BulkFenceResult(InvalidArgument, []))
    else
      var roots := OwnedRoots(s.rows, region, gen);
      var ids := InOrder(set k | k in roots && CollectStatus(s.rows, k) == Ok);
      assert forall i :: 0 <= i < |ids| ==> ids[i] in ids;
      var list := AtCurrentEpoch(s.rows, ids);
      (MoveEach(s, list, owner, Recovery), BulkFenceResult(Ok, Advanced(list)))
  }

  function Ags(list: seq<AgEpoch>): set<AgId> {
    set i | 0 <= i < |list| :: list[i].ag
  }

  ghost function ManifestStatus(rows: Rows, list: seq<AgEpoch>): FenceStatus {
    if list == [] then Ok
    else
      var n := |list| - 1;
      var s := ManifestStatus(rows, list[..n]);
      if s != Ok then s
      else if CollectStatus(rows, list[n].ag) != Ok then CollectStatus(rows, list[n].ag)
      else if rows[list[n].ag].epoch != list[n].epoch then Stale
      else Ok
  }

  ghost function MigrateRegion(s: FenceState, region: RegionId, gen: LeaseGen, to: Owner, manifest: seq<AgEpoch>)
    : (FenceState, BulkFenceResult)
  {
    if region == 0 || !to.IsValid() || to.leaseGen != gen || to.region != region then
      (s, BulkFenceResult(InvalidArgument, []))
    else if Ags(manifest) != RegionRoots(s.rows, region) || |Ags(manifest)| != |manifest| then
      (s, BulkFenceResult(Stale, []))
    else if ManifestStatus(s.rows, manifest) != Ok then
      (s, BulkFenceResult(ManifestStatus(s.rows, manifest), []))
    else
      assert forall i :: 0 <= i < |manifest| ==> manifest[i].ag in Ags(manifest);
      (MoveEach(s, manifest, to, Migrate), BulkFenceResult(Ok, Advanced(manifest)))
  }

  ghost function Apply(s: FenceState, op: FenceOp): (FenceState, FenceReply) {
    match op
    case OpAdvance(root, from, next, owner, cause) =>
      var (t, r) := Advance(s, root, from, next, owner, cause); (t, Single(r))
    case OpPark(root, e, owner, seqNo) =>
      var (t, r) := ParkTree(s, root, e, owner, seqNo); (t, Single(r))
    case OpJoin(member, em, root, er, owner) =>
      var (t, r) := JoinTrees(s, member, em, root, er, owner); (t, Single(r))
    case OpLeave(member, e, owner) =>
      var (t, r) := LeaveTree(s, member, e, owner); (t, Single(r))
    case OpAdvanceMany(roots, owner) =>
      var (t, r) := AdvanceMany(s, roots, owner); (t, Bulk(r))
    case OpAdvanceOwnedBy(region, gen, owner) =>
      var (t, r) := AdvanceOwnedBy(s, region, gen, owner); (t, Bulk(r))
    case OpMigrate(region, gen, owner, manifest) =>
      var (t, r) := MigrateRegion(s, region, gen, owner, manifest); (t, Bulk(r))
  }
}
