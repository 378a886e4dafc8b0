/// When each fence operation succeeds, what it answers otherwise and what it leaves behind, told from the rows alone
/// (engine/authority/src/memory_fence.cpp:223-424).
module FenceOutcomes {
  import opened AuthorityTypes
  import opened FenceForest
  import opened FenceInvariant
  import opened FenceSpec
  import opened FenceTheorems

  predicate IsRoot(rows: Rows, root: AgId) {
    root in rows && rows[root].root == root
  }

  /// What a call on `root` answers when it names no tree.
  predicate NoTree(rows: Rows, root: AgId, r: FenceResult) {
    r == FenceResult(if root in rows then NotRoot else NotFound, 0, NOBODY)
  }

  predicate OwnedBy(row: FenceRow, cell: CellId) {
    row.state == Active && row.owner.cell == cell
  }

  lemma CreateOutcome(s: FenceState, ag: AgId, epoch: Epoch)
    ensures var (t, created) := Create(s, ag, epoch);
      && (created <==> ag != NO_AG && ag !in s.rows)
      && (!created ==> t == s)
      && (created ==> t.rows.Keys == s.rows.Keys + {ag} && IsRoot(t.rows, ag) && t.rows[ag].epoch == epoch
                      && t.rows[ag].state == Dormant && t.rows[ag].owner == NOBODY && t.rows[ag].parkedSeq == 0
                      && (forall k :: k in s.rows ==> t.rows[k] == s.rows[k])
                      && t.events == s.events && t.released == s.released)
  {
  }

  // -- One tree ------------------------------------------------------------------------------

  predicate AdvanceArgumentsOk(from: Epoch, next: Epoch, owner: Owner, cause: AdvanceCause) {
    next == from + 1 && owner.IsValid() && (cause == Handoff || cause == Load || cause == Takeover || cause == Abort)
  }

  /// An advance succeeds exactly from the root's current epoch; a load only wakes a dormant tree, a handoff or abort
  /// only moves an active one, and a takeover takes either.
  lemma AdvanceIffCurrent(s: FenceState, root: AgId, from: Epoch, next: Epoch, owner: Owner, cause: AdvanceCause)
    requires Inv(s)
    ensures Advance(s, root, from, next, owner, cause).1.status == Ok <==>
            && AdvanceArgumentsOk(from, next, owner, cause)
            && IsRoot(s.rows, root) && s.rows[root].epoch == from
            && (cause == Load ==> s.rows[root].state == Dormant)
            && (cause == Handoff || cause == Abort ==> s.rows[root].state == Active)
  {
    RootsCollect(s.rows, root);
  }

  /// Why an advance is refused: a load of an active tree needs a takeover, and any other refusal of a current root's
  /// tree is stale and reports the epoch and the owner that won.
  lemma AdvanceRefused(s: FenceState, root: AgId, from: Epoch, next: Epoch, owner: Owner, cause: AdvanceCause)
    requires Inv(s) && Advance(s, root, from, next, owner, cause).1.status != Ok
    ensures var (t, r) := Advance(s, root, from, next, owner, cause);
      && t == s
      && (!AdvanceArgumentsOk(from, next, owner, cause) ==> r == FenceResult(InvalidArgument, 0, NOBODY))
      && (AdvanceArgumentsOk(from, next, owner, cause) ==>
            && (!IsRoot(s.rows, root) ==> NoTree(s.rows, root, r))
            && (IsRoot(s.rows, root) ==>
                  r == FenceResult(if s.rows[root].epoch == from && cause == Load then NeedsTakeover else Stale,
                                   s.rows[root].epoch, s.rows[root].owner)))
  {
    RootsCollect(s.rows, root);
  }

  /// A successful advance makes the tree active under the owner at the next epoch, answers with the owner before, and
  /// logs one event; the owner before is told when a load or takeover by another cell took the tree from it.
  lemma AdvanceMoves(s: FenceState, root: AgId, from: Epoch, next: Epoch, owner: Owner, cause: AdvanceCause)
    requires Inv(s) && Advance(s, root, from, next, owner, cause).1.status == Ok
    ensures root in s.rows
    ensures var (t, r) := Advance(s, root, from, next, owner, cause);
      var prev := s.rows[root].owner;
      && r.epoch == from + 1 && r.previousOwner == prev
      && t.rows.Keys == s.rows.Keys
      && (forall k :: k in s.rows ==>
            t.rows[k] == if s.rows[k].root == root
                         then s.rows[k].(epoch := from + 1, owner := owner, state := Active) else s.rows[k])
      && t.events == s.events + [FenceEvent(root, from + 1, prev, owner, cause)]
      && t.released == s.released
                       + if (cause == Load || cause == Takeover) && prev.cell != 0 && prev.cell != owner.cell
                         then [ReleasedNotice(prev.cell, root, from + 1)] else []
  {
  }

  /// A park succeeds exactly for the cell that owns the active tree, at its current epoch.
  lemma ParkIffOwned(s: FenceState, root: AgId, epoch: Epoch, owner: Owner, seqNo: StreamSeq)
    requires Inv(s)
    ensures var (t, r) := ParkTree(s, root, epoch, owner, seqNo);
      && (r.status == Ok <==>
            IsRoot(s.rows, root) && s.rows[root].epoch == epoch && OwnedBy(s.rows[root], owner.cell))
      && (r.status != Ok ==>
            && t == s
            && (if IsRoot(s.rows, root) then r == FenceResult(Stale, s.rows[root].epoch, s.rows[root].owner)
                else NoTree(s.rows, root, r)))
  {
    RootsCollect(s.rows, root);
  }

  /// A parked tree is dormant and nobody's, one epoch later, and all its rows remember the final checkpoint.
  lemma ParkMoves(s: FenceState, root: AgId, epoch: Epoch, owner: Owner, seqNo: StreamSeq)
    requires Inv(s) && ParkTree(s, root, epoch, owner, seqNo).1.status == Ok
    ensures root in s.rows
    ensures var (t, r) := ParkTree(s, root, epoch, owner, seqNo);
      && r.epoch == epoch + 1 && r.previousOwner == s.rows[root].owner
      && t.rows.Keys == s.rows.Keys
      && (forall k :: k in s.rows ==>
            t.rows[k] == if s.rows[k].root == root
                         then s.rows[k].(epoch := epoch + 1, owner := NOBODY, state := Dormant, parkedSeq := seqNo)
                         else s.rows[k])
      && t.events == s.events + [FenceEvent(root, epoch + 1, s.rows[root].owner, NOBODY, Park)]
      && t.released == s.released
  {
  }

  /// The checkpoint that a row remembers is changed by nothing but a successful park of its tree.
  lemma OnlyParksMark(s: FenceState, op: FenceOp, k: AgId)
    requires Inv(s) && k in s.rows
    ensures k in Apply(s, op).0.rows
    ensures Apply(s, op).0.rows[k].parkedSeq
            == if op.OpPark? && Apply(s, op).1.Status() == Ok && s.rows[k].root == op.root
               then op.seqNo else s.rows[k].parkedSeq
  {
    if Apply(s, op).1.Status() != Ok {
      FailureChangesNothing(s, op);
    } else if op.OpAdvanceMany? || op.OpAdvanceOwnedBy? || op.OpMigrate? {
      hide Apply, Inv;
      var list := BulkMoves(s, op);
      InvLines(s);
      MoveEachRows(s, list, op.owner, CauseOf(op));
      hide MoveEach;
    } else {
      hide Inv, CollectStatus;
    }
  }

  lemma InvLines(s: FenceState)
    requires Inv(s)
    ensures Lockstep(s.rows)
  {
  }

  // -- Two trees -----------------------------------------------------------------------------

  /// No chain that the program follows to the member has a row too many to hang below another root.
  ghost predicate FitsBelow(rows: Rows, member: AgId, maxTreeDepth: nat) {
    forall k: AgId, n: nat :: k in rows && n < WALK_LIMIT && Ancestor(rows, k, n) == member ==> n + 2 <= maxTreeDepth
  }

  /// A join succeeds exactly for two active trees of the cell, at their current epochs, that together keep within the
  /// depth limit.
  lemma JoinIffOwned(s: FenceState, member: AgId, em: Epoch, root: AgId, er: Epoch, owner: Owner)
    requires Inv(s)
    ensures JoinTrees(s, member, em, root, er, owner).1.status == Ok <==>
            && member != root && owner.IsValid() && IsRoot(s.rows, member) && IsRoot(s.rows, root)
            && s.rows[member].epoch == em && OwnedBy(s.rows[member], owner.cell)
            && s.rows[root].epoch == er && OwnedBy(s.rows[root], owner.cell)
            && FitsBelow(s.rows, member, s.maxTreeDepth)
  {
    RootsCollect(s.rows, member);
    RootsCollect(s.rows, root);
    FitsUnlessHigher(s.rows, member, s.maxTreeDepth);
    hide Inv, HigherThan, FitsBelow, CollectStatus;
  }

  lemma FitsUnlessHigher(rows: Rows, member: AgId, maxTreeDepth: nat)
    ensures HigherThan(rows, member, maxTreeDepth - 1) <==> !FitsBelow(rows, member, maxTreeDepth)
  {
    if HigherThan(rows, member, maxTreeDepth - 1) {
      var k: AgId, n: nat :|
        k in rows && n < WALK_LIMIT && Ancestor(rows, k, n) == member && n + 1 > maxTreeDepth - 1;
      assert n + 2 > maxTreeDepth;
    }
  }

  /// Why a join is refused: the member is looked at before the root, epochs and owners before the depth.
  lemma JoinRefused(s: FenceState, member: AgId, em: Epoch, root: AgId, er: Epoch, owner: Owner)
    requires Inv(s) && JoinTrees(s, member, em, root, er, owner).1.status != Ok
    ensures var (t, r) := JoinTrees(s, member, em, root, er, owner);
      && t == s
      && (if member == root || !owner.IsValid() then r == FenceResult(InvalidArgument, 0, NOBODY)
          else if !IsRoot(s.rows, member) then NoTree(s.rows, member, r)
          else if !IsRoot(s.rows, root) then NoTree(s.rows, root, r)
          else
            var m, top := s.rows[member], s.rows[root];
            var current := m.epoch == em && OwnedBy(m, owner.cell) && top.epoch == er && OwnedBy(top, owner.cell);
            && r.status == (if current then InvalidArgument else Stale)
            && r.epoch == (if m.epoch != em then m.epoch else top.epoch) && r.previousOwner == top.owner)
  {
    RootsCollect(s.rows, member);
    RootsCollect(s.rows, root);
  }

  /// A successful join hangs the member under the root: both trees are one, active under the root's owner, one epoch
  /// past the higher of the two.
  lemma JoinMoves(s: FenceState, member: AgId, em: Epoch, root: AgId, er: Epoch, owner: Owner)
    requires Inv(s) && JoinTrees(s, member, em, root, er, owner).1.status == Ok
    ensures root in s.rows
    ensures var (t, r) := JoinTrees(s, member, em, root, er, owner);
      var next, keeper := (if em > er then em else er) + 1, s.rows[root].owner;
      && r.epoch == next && r.previousOwner == keeper
      && t.rows.Keys == s.rows.Keys
      && (forall k :: k in s.rows ==>
            t.rows[k] == if s.rows[k].root == member || s.rows[k].root == root
                         then s.rows[k].(root := root, parent := if k == member then root else s.rows[k].parent,
                                         epoch := next, owner := keeper, state := Active)
                         else s.rows[k])
      && t.events == s.events + [FenceEvent(root, next, keeper, keeper, Join),
                                 FenceEvent(member, next, keeper, keeper, Join)]
      && t.released == s.released
  {
    var next, keeper := (if em > er then em else er) + 1, s.rows[root].owner;
    var first, second := FenceEvent(root, next, keeper, keeper, Join), FenceEvent(member, next, keeper, keeper, Join);
    assert (s.events + [first]) + [second] == s.events + [first, second];
  }

  /// A leave succeeds exactly for a member of an active tree of the cell, at the tree's current epoch.
  lemma LeaveIffOwned(s: FenceState, member: AgId, epoch: Epoch, owner: Owner)
    requires Inv(s)
    ensures var (t, r) := LeaveTree(s, member, epoch, owner);
      && (r.status == Ok <==>
            && member in s.rows && s.rows[member].root != member
            && s.rows[member].epoch == epoch && OwnedBy(s.rows[member], owner.cell))
      && (r.status != Ok ==>
            && t == s
            && (if member !in s.rows then r == FenceResult(NotFound, 0, NOBODY)
                else r == FenceResult(if s.rows[member].root == member then InvalidArgument else Stale,
                                      s.rows[member].epoch, s.rows[member].owner)))
  {
    if member in s.rows {
      RootsCollect(s.rows, s.rows[member].root);
      assert LineOk(s.rows, member) && ShapeOk(s.rows, member, DepthOf(s));
    }
  }

  /// A successful leave cuts off the member with the rows whose chain reaches it; both trees are one epoch later, under
  /// the same owner.
  lemma LeaveMoves(s: FenceState, member: AgId, epoch: Epoch, owner: Owner)
    requires Inv(s) && LeaveTree(s, member, epoch, owner).1.status == Ok
    ensures member in s.rows
    ensures var (t, r) := LeaveTree(s, member, epoch, owner);
      var root, keeper := s.rows[member].root, s.rows[member].owner;
      && r.epoch == epoch + 1 && r.previousOwner == keeper
      && t.rows.Keys == s.rows.Keys
      && (forall k :: k in s.rows ==>
            t.rows[k] == if s.rows[k].root == root
                         then s.rows[k].(root := if Reaches(s.rows, k, member) then member else root,
                                         parent := if k == member then NO_AG else s.rows[k].parent,
                                         epoch := epoch + 1, owner := keeper, state := Active)
                         else s.rows[k])
      && t.events == s.events + [FenceEvent(root, epoch + 1, keeper, keeper, Leave),
                                 FenceEvent(member, epoch + 1, keeper, keeper, Leave)]
      && t.released == s.released
  {
    assert LineOk(s.rows, member) && ShapeOk(s.rows, member, DepthOf(s));
    DescendantsInTree(s.rows, DepthOf(s), member);
    var root, keeper := s.rows[member].root, s.rows[member].owner;
    var first, second :=
      FenceEvent(root, epoch + 1, keeper, keeper, Leave), FenceEvent(member, epoch + 1, keeper, keeper, Leave);
    assert (s.events + [first]) + [second] == s.events + [first, second];
    forall k | k in s.rows ensures Reaches(s.rows, k, member) <==> k in Descendants(s.rows, member) { }
    hide Inv, Reaches;
  }

  // -- Many trees ----------------------------------------------------------------------------

  /// Entry `i` names an active root at its current epoch, and no earlier entry names it.
  predicate EntryOk(rows: Rows, list: seq<AgEpoch>, i: nat)
    requires i < |list|
  {
    && IsRoot(rows, list[i].ag) && rows[list[i].ag].epoch == list[i].epoch && rows[list[i].ag].state == Active
    && forall j :: 0 <= j < i ==> list[j].ag != list[i].ag
  }

  /// The first entry that cannot move decides why a bundle handoff is refused.
  lemma ManyRefused(s: FenceState, list: seq<AgEpoch>, owner: Owner) returns (i: nat)
    requires Inv(s) && AdvanceMany(s, list, owner).1.status != Ok
    ensures list == [] || !owner.IsValid() ==> AdvanceMany(s, list, owner).1.status == InvalidArgument
    ensures list != [] && owner.IsValid() ==>
              && i < |list| && !EntryOk(s.rows, list, i) && (forall j :: 0 <= j < i ==> EntryOk(s.rows, list, j))
              && AdvanceMany(s, list, owner).1.status
                 == if exists j :: 0 <= j < i && list[j].ag == list[i].ag then InvalidArgument
                    else if list[i].ag !in s.rows then NotFound
                    else if s.rows[list[i].ag].root != list[i].ag then NotRoot
                    else Stale
  {
    i := 0;
    if list != [] && owner.IsValid() { i := FirstRefused(s.rows, list); }
  }

  lemma {:induction false} FirstRefused(rows: Rows, list: seq<AgEpoch>) returns (i: nat)
    requires Lockstep(rows) && FirstFailure(rows, list) != Ok
    ensures i < |list| && !EntryOk(rows, list, i) && (forall j :: 0 <= j < i ==> EntryOk(rows, list, j))
    ensures FirstFailure(rows, list)
            == if exists j :: 0 <= j < i && list[j].ag == list[i].ag then InvalidArgument
               else if list[i].ag !in rows then NotFound
               else if rows[list[i].ag].root != list[i].ag then NotRoot
               else Stale
  {
    var n := |list| - 1;
    var init := list[..n];
    assert forall j :: 0 <= j < n ==> EntryOk(rows, init, j) == EntryOk(rows, list, j);
    if FirstFailure(rows, init) != Ok {
      i := FirstRefused(rows, init);
    } else {
      i := n;
      FirstFailureOk(rows, init);
      forall j | 0 <= j < n ensures EntryOk(rows, list, j) {
        assert ListedStatus(rows, init, j) == Ok;
        RootsCollect(rows, list[j].ag);
      }
      RootsCollect(rows, list[n].ag);
    }
  }

  /// A migration with valid arguments is refused as stale or not at all, and recovery refuses invalid arguments only.
  lemma MigrateAndRecoveryRefused(s: FenceState, region: RegionId, gen: LeaseGen, owner: Owner, manifest: seq<AgEpoch>)
    requires Inv(s)
    ensures var (t, r) := MigrateRegion(s, region, gen, owner, manifest);
      && (r.status == InvalidArgument <==>
            region == 0 || !owner.IsValid() || owner.leaseGen != gen || owner.region != region)
      && r.status in {Ok, Stale, InvalidArgument}
      && (r.status != Ok ==> t == s && r.advanced == [])
    ensures var (t, r) := AdvanceOwnedBy(s, region, gen, owner);
      && r.status == (if region == 0 || !owner.IsValid() then InvalidArgument else Ok)
      && (r.status != Ok ==> t == s && r.advanced == [])
  {
    if Ags(manifest) == RegionRoots(s.rows, region) { ManifestStale(s.rows, region, manifest); }
  }

  lemma {:induction false} ManifestStale(rows: Rows, region: RegionId, list: seq<AgEpoch>)
    requires Lockstep(rows) && Ags(list) <= RegionRoots(rows, region)
    ensures ManifestStatus(rows, list) in {Ok, Stale}
  {
    if list != [] {
      AgsSnoc(list);
      ManifestStale(rows, region, list[..|list| - 1]);
      RootsCollect(rows, list[|list| - 1].ag);
    }
  }

  // -- The log and the notices ---------------------------------------------------------------

  /// One event for each entry, in list order.
  function EventsFor(rows: Rows, list: seq<AgEpoch>, owner: Owner, cause: AdvanceCause): (events: seq<FenceEvent>)
    requires AllIn(rows, list)
    ensures |events| == |list|
    ensures forall i :: 0 <= i < |list| ==>
              events[i] == FenceEvent(list[i].ag, list[i].epoch + 1, rows[list[i].ag].owner, owner, cause)
  {
    seq(|list|, i requires 0 <= i < |list| =>
      FenceEvent(list[i].ag, list[i].epoch + 1, rows[list[i].ag].owner, owner, cause))
  }

  lemma EventsForLast(rows: Rows, list: seq<AgEpoch>, owner: Owner, cause: AdvanceCause)
    requires AllIn(rows, list) && list != []
    ensures var n := |list| - 1;
      AllIn(rows, list[..n])
      && EventsFor(rows, list, owner, cause)
         == EventsFor(rows, list[..n], owner, cause)
            + [FenceEvent(list[n].ag, list[n].epoch + 1, rows[list[n].ag].owner, owner, cause)]
  {
  }

  lemma LastKeepsOwner(s: FenceState, list: seq<AgEpoch>, owner: Owner, cause: AdvanceCause)
    requires Lockstep(s.rows) && CurrentRoots(s, list) && list != []
    ensures AllIn(s.rows, list) && AllIn(s.rows, list[..|list| - 1]) && CurrentRoots(s, list[..|list| - 1])
    ensures var last := list[|list| - 1].ag;
      MoveEach(s, list[..|list| - 1], owner, cause).rows[last].owner == s.rows[last].owner
  {
    LastStaysCurrent(s, list, owner, cause);
    MoveEachRows(s, list[..|list| - 1], owner, cause);
    hide MoveEach, Lockstep;
  }

  lemma {:induction false} MoveEachLogs(s: FenceState, list: seq<AgEpoch>, owner: Owner, cause: AdvanceCause)
    requires Lockstep(s.rows) && CurrentRoots(s, list)
    ensures MoveEach(s, list, owner, cause).events == s.events + EventsFor(s.rows, list, owner, cause)
  {
    if list != [] {
      LastKeepsOwner(s, list, owner, cause);
      EventsForLast(s.rows, list, owner, cause);
      hide Lockstep, CurrentRoots, AllIn, Moved, EventsFor;
      MoveEachLogs(s, list[..|list| - 1], owner, cause);
    }
  }

  function CauseOf(op: FenceOp): AdvanceCause
    requires op.OpAdvanceMany? || op.OpAdvanceOwnedBy? || op.OpMigrate?
  {
    if op.OpAdvanceMany? then Handoff else if op.OpMigrate? then Migrate else Recovery
  }

  lemma BulkMoves(s: FenceState, op: FenceOp) returns (list: seq<AgEpoch>)
    requires Inv(s) && (op.OpAdvanceMany? || op.OpAdvanceOwnedBy? || op.OpMigrate?)
    requires Apply(s, op).1.Status() == Ok
    ensures CurrentRoots(s, list)
    ensures Apply(s, op) == (MoveEach(s, list, op.owner, CauseOf(op)), Bulk(BulkFenceResult(Ok, Advanced(list))))
  {
    match op
    case OpAdvanceMany(roots, owner) => list := roots; AdvanceManyListsRoots(s, roots, owner);
    case OpAdvanceOwnedBy(region, gen, owner) => list := OwnedByMoves(s, region, gen, owner);
    case OpMigrate(region, gen, to, manifest) => list := manifest; MigrateListsRoots(s, region, gen, to, manifest);
  }

  /// What a bulk operation logs and answers: an event and an entry for each tree it moved, in one order.
  lemma BulkLogs(s: FenceState, op: FenceOp) returns (list: seq<AgEpoch>)
    requires Inv(s) && (op.OpAdvanceMany? || op.OpAdvanceOwnedBy? || op.OpMigrate?)
    requires Apply(s, op).1.Status() == Ok
    ensures AllIn(s.rows, list) && Apply(s, op).0.rows.Keys == s.rows.Keys
    ensures forall k :: k in Ags(list) <==> IsRoot(s.rows, k) && s.rows[k].epoch < Apply(s, op).0.rows[k].epoch
    ensures Apply(s, op).0.events == s.events + EventsFor(s.rows, list, op.owner, CauseOf(op))
    ensures var advanced := Apply(s, op).1.bulk.advanced;
      |advanced| == |list|
      && forall i :: 0 <= i < |list| ==>
           list[i].epoch == s.rows[list[i].ag].epoch && advanced[i] == AgEpoch(list[i].ag, list[i].epoch + 1)
  {
    list := BulkMoves(s, op);
    hide Apply;
    MoveEachLogs(s, list, op.owner, CauseOf(op));
    MoveEachRows(s, list, op.owner, CauseOf(op));
    hide MoveEach, Lockstep, EventsFor;
    forall k | k in Ags(list) ensures IsRoot(s.rows, k) { }
  }

  /// The notices that a log calls for: one for each load, takeover or recovery that took a tree from another cell.
  function NoticesOf(events: seq<FenceEvent>): seq<ReleasedNotice> {
    if events == [] then []
    else
      var e := events[|events| - 1];
      NoticesOf(events[..|events| - 1])
      + if (e.cause == Load || e.cause == Takeover || e.cause == Recovery)
           && e.previousOwner.cell != 0 && e.previousOwner.cell != e.owner.cell
        then [ReleasedNotice(e.previousOwner.cell, e.ag, e.epoch)] else []
  }

  predicate Notified(s: FenceState) {
    s.released == NoticesOf(s.events)
  }

  lemma EmitNotifies(s: FenceState, ag: AgId, epoch: Epoch, prev: Owner, owner: Owner, cause: AdvanceCause)
    requires Notified(s)
    ensures Notified(Emit(s, ag, epoch, prev, owner, cause))
  {
    var e := FenceEvent(ag, epoch, prev, owner, cause);
    assert (s.events + [e])[..|s.events|] == s.events;
  }

  lemma {:induction false} MoveEachNotifies(s: FenceState, list: seq<AgEpoch>, owner: Owner, cause: AdvanceCause)
    requires AllIn(s.rows, list) && Notified(s)
    ensures Notified(MoveEach(s, list, owner, cause))
  {
    if list != [] {
      var n := |list| - 1;
      MoveEachNotifies(s, list[..n], owner, cause);
      var u := MoveEach(s, list[..n], owner, cause);
      EmitNotifies(u.(rows := Moved(u.rows, Tree(u.rows, list[n].ag), list[n].epoch + 1, owner, Active)),
                   list[n].ag, list[n].epoch + 1, u.rows[list[n].ag].owner, owner, cause);
    }
  }

  lemma SingleNotifies(s: FenceState, op: FenceOp)
    requires Inv(s) && Notified(s) && Apply(s, op).1.Status() == Ok && (op.OpAdvance? || op.OpPark?)
    ensures Notified(Apply(s, op).0)
  {
    hide Inv, NoticesOf, Advance, ParkTree;
    if op.OpAdvance? {
      AdvanceIffCurrent(s, op.root, op.from, op.next, op.owner, op.cause);
      AdvanceMoves(s, op.root, op.from, op.next, op.owner, op.cause);
      OneMoreEvent(s.events, FenceEvent(op.root, op.from + 1, s.rows[op.root].owner, op.owner, op.cause));
    } else {
      ParkMoves(s, op.root, op.epoch, op.owner, op.seqNo);
      OneMoreEvent(s.events, FenceEvent(op.root, op.epoch + 1, s.rows[op.root].owner, NOBODY, Park));
    }
  }

  lemma PairNotifies(s: FenceState, op: FenceOp)
    requires Inv(s) && Notified(s) && Apply(s, op).1.Status() == Ok && (op.OpJoin? || op.OpLeave?)
    ensures Notified(Apply(s, op).0)
  {
    hide Inv, NoticesOf, JoinTrees, LeaveTree;
    if op.OpJoin? {
      JoinMoves(s, op.member, op.memberEpoch, op.root, op.rootEpoch, op.owner);
      var next := (if op.memberEpoch > op.rootEpoch then op.memberEpoch else op.rootEpoch) + 1;
      var keeper := s.rows[op.root].owner;
      TwoMoreEvents(s.events, FenceEvent(op.root, next, keeper, keeper, Join),
                    FenceEvent(op.member, next, keeper, keeper, Join));
    } else {
      LeaveMoves(s, op.member, op.epoch, op.owner);
      var root, keeper := s.rows[op.member].root, s.rows[op.member].owner;
      TwoMoreEvents(s.events, FenceEvent(root, op.epoch + 1, keeper, keeper, Leave),
                    FenceEvent(op.member, op.epoch + 1, keeper, keeper, Leave));
    }
  }

  lemma ApplyNotifies(s: FenceState, op: FenceOp)
    requires Inv(s) && Notified(s)
    ensures Notified(Apply(s, op).0)
  {
    hide Apply, Notified, Inv;
    if Apply(s, op).1.Status() != Ok {
      FailureChangesNothing(s, op);
    } else if op.OpAdvance? || op.OpPark? {
      SingleNotifies(s, op);
    } else if op.OpJoin? || op.OpLeave? {
      PairNotifies(s, op);
    } else {
      var list := BulkMoves(s, op);
      CurrentAreIn(s, list);
      MoveEachNotifies(s, list, op.owner, CauseOf(op));
    }
  }

  lemma CurrentAreIn(s: FenceState, list: seq<AgEpoch>)
    requires CurrentRoots(s, list)
    ensures AllIn(s.rows, list)
  {
  }

  lemma OneMoreEvent(events: seq<FenceEvent>, e: FenceEvent)
    ensures NoticesOf(events + [e])
            == NoticesOf(events)
               + if (e.cause == Load || e.cause == Takeover || e.cause == Recovery)
                    && e.previousOwner.cell != 0 && e.previousOwner.cell != e.owner.cell
                 then [ReleasedNotice(e.previousOwner.cell, e.ag, e.epoch)] else []
  {
    assert (events + [e])[..|events|] == events;
  }

  lemma TwoMoreEvents(events: seq<FenceEvent>, e: FenceEvent, f: FenceEvent)
    requires e.previousOwner == e.owner && f.previousOwner == f.owner
    ensures NoticesOf(events + [e, f]) == NoticesOf(events)
  {
    assert events + [e, f] == (events + [e]) + [f];
    OneMoreEvent(events + [e], f);
    OneMoreEvent(events, e);
  }

  /// In every reachable store the notices are exactly those that the log calls for, in its order.
  lemma {:induction false} NoticesFollowLog(maxTreeDepth: nat, steps: seq<StoreStep>)
    ensures Notified(Run(Empty(maxTreeDepth), steps))
    decreases |steps|
  {
    if steps != [] {
      var init, last := steps[..|steps| - 1], steps[|steps| - 1];
      NoticesFollowLog(maxTreeDepth, init);
      NoRowsShaped(Empty(maxTreeDepth));
      RunKeepsInv(Empty(maxTreeDepth), init);
      if last.Invoke? { ApplyNotifies(Run(Empty(maxTreeDepth), init), last.op); }
    }
  }

  lemma {:induction false} EventIsNotified(events: seq<FenceEvent>, i: nat)
    requires i < |events|
    requires var e := events[i]; e.cause == Load || e.cause == Takeover || e.cause == Recovery
    requires var e := events[i]; e.previousOwner.cell != 0 && e.previousOwner.cell != e.owner.cell
    ensures var e := events[i]; ReleasedNotice(e.previousOwner.cell, e.ag, e.epoch) in NoticesOf(events)
    decreases |events|
  {
    if i < |events| - 1 { EventIsNotified(events[..|events| - 1], i); }
  }

  lemma AdvanceIsNotified(s: FenceState, root: AgId, from: Epoch, next: Epoch, owner: Owner, cause: AdvanceCause)
    requires Inv(s) && Advance(s, root, from, next, owner, cause).1.status == Ok && (cause == Load || cause == Takeover)
    requires root in s.rows && s.rows[root].owner.cell != 0 && s.rows[root].owner.cell != owner.cell
    ensures ReleasedNotice(s.rows[root].owner.cell, root, s.rows[root].epoch + 1)
            in Advance(s, root, from, next, owner, cause).0.released
  {
    AdvanceMoves(s, root, from, next, owner, cause);
    AdvanceIffCurrent(s, root, from, next, owner, cause);
    hide Advance, Inv;
    var t := Advance(s, root, from, next, owner, cause).0;
    assert t.released[|s.released|] == ReleasedNotice(s.rows[root].owner.cell, root, s.rows[root].epoch + 1);
  }

  lemma ListedIsNotified(t: FenceState, before: seq<FenceEvent>, rows: Rows, list: seq<AgEpoch>, owner: Owner, i: nat)
    requires Notified(t) && AllIn(rows, list) && t.events == before + EventsFor(rows, list, owner, Recovery)
    requires i < |list| && rows[list[i].ag].owner.cell != 0 && rows[list[i].ag].owner.cell != owner.cell
    ensures ReleasedNotice(rows[list[i].ag].owner.cell, list[i].ag, list[i].epoch + 1) in t.released
  {
    assert t.events[|before| + i]
           == FenceEvent(list[i].ag, list[i].epoch + 1, rows[list[i].ag].owner, owner, Recovery);
    EventIsNotified(t.events, |before| + i);
  }

  lemma RecoveryIsNotified(s: FenceState, op: FenceOp, root: AgId)
    requires Inv(s) && Notified(s) && op.OpAdvanceOwnedBy? && Apply(s, op).1.Status() == Ok
    requires IsRoot(s.rows, root) && s.rows[root].owner.cell != 0 && s.rows[root].owner.cell != op.owner.cell
    requires root in Apply(s, op).0.rows && s.rows[root].epoch < Apply(s, op).0.rows[root].epoch
    ensures ReleasedNotice(s.rows[root].owner.cell, root, s.rows[root].epoch + 1) in Apply(s, op).0.released
  {
    hide Apply, Inv, EventsFor, Notified, NoticesOf;
    ApplyNotifies(s, op);
    var list := BulkLogs(s, op);
    assert root in Ags(list);
    var i :| 0 <= i < |list| && list[i].ag == root;
    ListedIsNotified(Apply(s, op).0, s.events, s.rows, list, op.owner, i);
  }

  /// A load, takeover or recovery that takes an owned tree to another cell tells the cell it was taken from.
  lemma TakenIsNotified(s: FenceState, op: FenceOp, root: AgId)
    requires Inv(s) && Notified(s) && Apply(s, op).1.Status() == Ok
    requires (op.OpAdvance? && op.root == root && (op.cause == Load || op.cause == Takeover)) || op.OpAdvanceOwnedBy?
    requires IsRoot(s.rows, root) && s.rows[root].owner.cell != 0 && s.rows[root].owner.cell != op.owner.cell
    requires root in Apply(s, op).0.rows && s.rows[root].epoch < Apply(s, op).0.rows[root].epoch
    ensures ReleasedNotice(s.rows[root].owner.cell, root, s.rows[root].epoch + 1) in Apply(s, op).0.released
  {
    if op.OpAdvance? {
      hide Inv, Notified, Advance;
      AdvanceIsNotified(s, op.root, op.from, op.next, op.owner, op.cause);
    } else {
      RecoveryIsNotified(s, op, root);
    }
  }
}
