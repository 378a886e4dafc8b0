/// Every fence operation keeps the invariant, changes exactly the trees it selects when it
/// succeeds, and changes nothing when it does not (engine/authority/src/memory_fence.cpp:215-424).
module FenceInvariant {
  import opened AuthorityTypes
  import opened FenceForest
  import opened FenceSpec
  import opened Naturals
  import opened OrderedSets

  // -- Steps of the log ----------------------------------------------------------------------

  /// The row stays as it is for the log, or gains epoch.
  ghost predicate RowStep(before: FenceRow, after: FenceRow) {
    before.epoch < after.epoch
    || (before.epoch == after.epoch && before.owner == after.owner && before.root == after.root
        && before.state == after.state)
  }

  /// A new event logs a row that gained epoch, at its new epoch and owner.
  ghost predicate NewEvent(rows: Rows, after: Rows, e: FenceEvent) {
    && e.ag in rows && e.ag in after
    && rows[e.ag].epoch < after[e.ag].epoch == e.epoch && after[e.ag].owner == e.owner
  }

  /// The outbox stays consistent when every row that moves gains epoch and every root that moves
  /// is logged once at its new epoch and owner.
  lemma LogStep(s: FenceState, t: FenceState, added: seq<FenceEvent>)
    requires EventsOk(s) && t.events == s.events + added && t.rows.Keys == s.rows.Keys
    requires forall k :: k in s.rows ==> RowStep(s.rows[k], t.rows[k])
    requires forall i :: 0 <= i < |added| ==> NewEvent(s.rows, t.rows, added[i])
    requires forall i, j :: 0 <= i < j < |added| ==> added[i].ag != added[j].ag
    requires forall k :: k in s.rows && t.rows[k].root == k && s.rows[k].epoch < t.rows[k].epoch ==>
               exists i :: 0 <= i < |added| && added[i].ag == k
    ensures EventsOk(t)
  {
    var n := |s.events|;
    forall i | 0 <= i < |t.events| ensures EventOk(t.rows, t.events[i]) {
      if i < n { assert EventOk(s.rows, s.events[i]); } else { assert t.events[i] == added[i - n]; }
    }
    forall i, j | 0 <= i < j < |t.events| && t.events[i].ag == t.events[j].ag
      ensures t.events[i].epoch < t.events[j].epoch
    {
      if i < n <= j { assert EventOk(s.rows, s.events[i]) && t.events[j] == added[j - n]; }
    }
    forall k | k in t.rows && t.rows[k].root == k ensures RootLogged(t, k) {
      assert RowStep(s.rows[k], t.rows[k]);
      if s.rows[k].epoch < t.rows[k].epoch {
        var i :| 0 <= i < |added| && added[i].ag == k;
        assert t.events[n + i] == added[i];
      } else if RootLogged(s, k) && Logged(s, k, s.rows[k].epoch, s.rows[k].owner) {
        var i :| 0 <= i < n && s.events[i].ag == k && s.events[i].epoch == s.rows[k].epoch
                 && s.events[i].owner == s.rows[k].owner;
        assert t.events[i] == s.events[i];
      }
    }
  }

  lemma EmitNotices(s: FenceState, ag: AgId, epoch: Epoch, prev: Owner, owner: Owner, cause: AdvanceCause)
    requires NoticesOk(s)
    ensures NoticesOk(Emit(s, ag, epoch, prev, owner, cause))
  {
    var t := Emit(s, ag, epoch, prev, owner, cause);
    forall n | n in t.released
      ensures exists i :: 0 <= i < |t.events| && t.events[i].ag == n.ag && t.events[i].epoch == n.epoch
                          && t.events[i].previousOwner.cell == n.cell != t.events[i].owner.cell
                          && t.events[i].cause in {Load, Takeover, Recovery}
    {
      if n in s.released {
        var i :| 0 <= i < |s.events| && s.events[i].ag == n.ag && s.events[i].epoch == n.epoch
                 && s.events[i].previousOwner.cell == n.cell != s.events[i].owner.cell
                 && s.events[i].cause in {Load, Takeover, Recovery};
        assert t.events[i] == s.events[i];
      } else {
        assert t.events[|s.events|].ag == n.ag;
      }
    }
  }

  // -- One tree moves ------------------------------------------------------------------------

  lemma MovedKeepsShape(rows: Rows, depth: nat, ids: set<AgId>, next: Epoch, owner: Owner, state: RowState)
    requires ForestShape(rows, depth)
    ensures ForestShape(Moved(rows, ids, next, owner, state), depth)
  {
    var moved := Moved(rows, ids, next, owner, state);
    forall k | k in moved ensures ShapeOk(moved, k, depth) {
      assert ShapeOk(rows, k, depth);
      SameParentsSameChain(rows, moved, k, depth);
    }
  }

  /// `ids` holds a row exactly when it holds the row's root.
  ghost predicate WithRoot(rows: Rows, ids: set<AgId>, k: AgId)
    requires k in rows
  {
    && (k in ids <==> rows[k].root in ids)
    && rows[k].root in rows && rows[rows[k].root].root == rows[k].root
    && (k !in ids ==> LineOk(rows, k))
  }

  /// Moving a union of whole trees keeps the forest and its lockstep; it restores the lockstep of
  /// the trees it moves.
  lemma MovedKeepsForest(rows: Rows, depth: nat, ids: set<AgId>, next: Epoch, owner: Owner, state: RowState)
    requires ForestShape(rows, depth)
    requires forall k {:trigger WithRoot(rows, ids, k)} :: k in rows ==> WithRoot(rows, ids, k)
    requires (state == Active ==> owner.IsValid()) && (state == Dormant ==> owner == NOBODY)
    ensures ForestShape(Moved(rows, ids, next, owner, state), depth)
    ensures Lockstep(Moved(rows, ids, next, owner, state))
  {
    var moved := Moved(rows, ids, next, owner, state);
    MovedKeepsShape(rows, depth, ids, next, owner, state);
    forall k | k in moved ensures LineOk(moved, k) {
      assert WithRoot(rows, ids, k);
    }
  }

  lemma MoveTreeKeepsForest(s: FenceState, root: AgId, epoch: Epoch, owner: Owner, state: RowState, cause: AdvanceCause)
    requires Shaped(s) && Lockstep(s.rows)
    requires root in s.rows && s.rows[root].root == root
    requires (state == Active ==> owner.IsValid()) && (state == Dormant ==> owner == NOBODY)
    ensures var t := MoveTree(s, root, epoch, owner, state, cause);
      Shaped(t) && Lockstep(t.rows)
  {
    forall k | k in s.rows ensures WithRoot(s.rows, Tree(s.rows, root), k) {
      assert ShapeOk(s.rows, k, DepthOf(s)) && LineOk(s.rows, k);
    }
    MovedKeepsForest(s.rows, DepthOf(s), Tree(s.rows, root), epoch, owner, state);
  }

  lemma MoveTreeKeepsLog(s: FenceState, root: AgId, epoch: Epoch, owner: Owner, state: RowState, cause: AdvanceCause)
    requires EventsOk(s) && Lockstep(s.rows)
    requires root in s.rows && s.rows[root].root == root && s.rows[root].epoch < epoch
    ensures EventsOk(MoveTree(s, root, epoch, owner, state, cause))
  {
    var t := MoveTree(s, root, epoch, owner, state, cause);
    var added := [FenceEvent(root, epoch, s.rows[root].owner, owner, cause)];
    forall k | k in s.rows
      ensures RowStep(s.rows[k], t.rows[k])
      ensures t.rows[k].root == k && s.rows[k].epoch < t.rows[k].epoch ==> added[0].ag == k
    {
      assert LineOk(s.rows, k);
    }
    LogStep(s, t, added);
  }

  lemma MoveTreeKeepsInv(s: FenceState, root: AgId, epoch: Epoch, owner: Owner, state: RowState, cause: AdvanceCause)
    requires Inv(s) && root in s.rows && s.rows[root].root == root && s.rows[root].epoch < epoch
    requires (state == Active ==> owner.IsValid()) && (state == Dormant ==> owner == NOBODY)
    ensures Inv(MoveTree(s, root, epoch, owner, state, cause))
  {
    MoveTreeKeepsForest(s, root, epoch, owner, state, cause);
    MoveTreeKeepsLog(s, root, epoch, owner, state, cause);
    EmitNotices(s.(rows := Moved(s.rows, Tree(s.rows, root), epoch, owner, state)),
                root, epoch, s.rows[root].owner, owner, cause);
  }

  lemma ShapeIgnoresParkedSeq(s: FenceState, ids: set<AgId>, seqNo: StreamSeq)
    requires Shaped(s) && Lockstep(s.rows)
    ensures Shaped(s.(rows := Parked(s.rows, ids, seqNo))) && Lockstep(Parked(s.rows, ids, seqNo))
  {
    var rows, depth := Parked(s.rows, ids, seqNo), DepthOf(s);
    forall k | k in rows ensures ShapeOk(rows, k, depth) && LineOk(rows, k) {
      assert ShapeOk(s.rows, k, depth) && LineOk(s.rows, k);
      SameParentsSameChain(s.rows, rows, k, depth);
    }
    assert ForestShape(rows, depth);
  }

  /// The invariant does not look at the parked sequence numbers.
  lemma InvIgnoresParkedSeq(s: FenceState, ids: set<AgId>, seqNo: StreamSeq)
    requires Inv(s)
    ensures Inv(s.(rows := Parked(s.rows, ids, seqNo)))
  {
    ShapeIgnoresParkedSeq(s, ids, seqNo);
    hide Shaped, Lockstep;
    var rows := Parked(s.rows, ids, seqNo);
    var t := s.(rows := rows);
    forall i | 0 <= i < |t.events| ensures EventOk(t.rows, t.events[i]) {
      assert EventOk(s.rows, s.events[i]);
    }
    forall k | k in rows && rows[k].root == k ensures RootLogged(t, k) {
      assert RootLogged(s, k);
      assert Logged(s, k, s.rows[k].epoch, s.rows[k].owner) ==> Logged(t, k, rows[k].epoch, rows[k].owner);
    }
  }

  // -- Join and leave ------------------------------------------------------------------------

  /// The depth of the joined forest: the limit when the program can check it, and otherwise some depth.
  lemma JoinedDepth(s: FenceState, member: AgId, em: Epoch, root: AgId, er: Epoch, owner: Owner) returns (depth: nat)
    requires Shaped(s) && JoinTrees(s, member, em, root, er, owner).1.status == Ok
    ensures DepthFits(s.maxTreeDepth, depth) && ForestShape(s.rows, depth) && NoneHigher(s.rows, member, depth - 1)
  {
    var d := DepthOf(s);
    assert Ancestor(s.rows, member, 0) == member;
    ChainsAreShort(s.rows, d, member);
    depth := if s.maxTreeDepth <= WALK_LIMIT then d else 2 * d;
    Deeper(s.rows, d, depth);
  }

  lemma JoinKeepsForest(s: FenceState, member: AgId, em: Epoch, root: AgId, er: Epoch, owner: Owner)
    requires Shaped(s) && Lockstep(s.rows)
    requires JoinTrees(s, member, em, root, er, owner).1.status == Ok
    ensures var t := JoinTrees(s, member, em, root, er, owner).0;
      Shaped(t) && Lockstep(t.rows)
  {
    var members, all := Tree(s.rows, member), Tree(s.rows, member) + Tree(s.rows, root);
    var joined := Rerooted(s.rows, members, root, member, root);
    var depth := JoinedDepth(s, member, em, root, er, owner);
    JoinShape(s.rows, depth, member, root);
    forall k | k in joined ensures WithRoot(joined, all, k) {
      assert ShapeOk(s.rows, k, depth) && LineOk(s.rows, k);
    }
    assert LineOk(s.rows, root);
    MovedKeepsForest(joined, depth, all, Max(em, er) + 1, s.rows[root].owner, Active);
  }

  lemma JoinKeepsLog(s: FenceState, member: AgId, em: Epoch, root: AgId, er: Epoch, owner: Owner)
    requires EventsOk(s) && Lockstep(s.rows)
    requires JoinTrees(s, member, em, root, er, owner).1.status == Ok
    ensures EventsOk(JoinTrees(s, member, em, root, er, owner).0)
  {
    var t := JoinTrees(s, member, em, root, er, owner).0;
    var r, next := s.rows[root], Max(em, er) + 1;
    var added := [FenceEvent(root, next, r.owner, r.owner, Join), FenceEvent(member, next, r.owner, r.owner, Join)];
    forall k | k in s.rows
      ensures RowStep(s.rows[k], t.rows[k])
      ensures t.rows[k].root == k && s.rows[k].epoch < t.rows[k].epoch ==> added[0].ag == k
    {
      assert LineOk(s.rows, k);
    }
    LogStep(s, t, added);
  }

  lemma JoinKeepsInv(s: FenceState, member: AgId, em: Epoch, root: AgId, er: Epoch, owner: Owner)
    requires Inv(s) && JoinTrees(s, member, em, root, er, owner).1.status == Ok
    ensures Inv(JoinTrees(s, member, em, root, er, owner).0)
  {
    var t := JoinTrees(s, member, em, root, er, owner).0;
    var prev, next := s.rows[root].owner, Max(em, er) + 1;
    JoinKeepsForest(s, member, em, root, er, owner);
    JoinKeepsLog(s, member, em, root, er, owner);
    EmitNotices(s.(rows := t.rows), root, next, prev, prev, Join);
    EmitNotices(Emit(s.(rows := t.rows), root, next, prev, prev, Join), member, next, prev, prev, Join);
  }

  lemma LeaveKeepsForest(s: FenceState, member: AgId, epoch: Epoch, owner: Owner)
    requires Shaped(s) && Lockstep(s.rows)
    requires LeaveTree(s, member, epoch, owner).1.status == Ok
    ensures var t := LeaveTree(s, member, epoch, owner).0;
      Shaped(t) && Lockstep(t.rows)
  {
    var root := s.rows[member].root;
    var sub, all := Descendants(s.rows, member), Tree(s.rows, root);
    var left := Rerooted(s.rows, sub, member, member, NO_AG);
    LeaveShape(s.rows, DepthOf(s), member);
    DescendantsInTree(s.rows, DepthOf(s), member);
    forall k | k in left ensures WithRoot(left, all, k) {
      assert ShapeOk(s.rows, k, DepthOf(s)) && LineOk(s.rows, k);
      RootsAreNotBelow(s.rows, DepthOf(s), member, k);
    }
    assert LineOk(s.rows, root);
    MovedKeepsForest(left, DepthOf(s), all, epoch + 1, s.rows[root].owner, Active);
  }

  lemma LeaveKeepsLog(s: FenceState, member: AgId, epoch: Epoch, owner: Owner)
    requires Shaped(s) && EventsOk(s) && Lockstep(s.rows)
    requires LeaveTree(s, member, epoch, owner).1.status == Ok
    ensures EventsOk(LeaveTree(s, member, epoch, owner).0)
  {
    var t := LeaveTree(s, member, epoch, owner).0;
    var root := s.rows[member].root;
    var prev := s.rows[root].owner;
    var added := [FenceEvent(root, epoch + 1, prev, prev, Leave), FenceEvent(member, epoch + 1, prev, prev, Leave)];
    DescendantsInTree(s.rows, DepthOf(s), member);
    forall k | k in s.rows
      ensures RowStep(s.rows[k], t.rows[k])
      ensures t.rows[k].root == k && s.rows[k].epoch < t.rows[k].epoch ==> added[0].ag == k || added[1].ag == k
    {
      assert LineOk(s.rows, k) && ShapeOk(s.rows, k, DepthOf(s));
    }
    LogStep(s, t, added);
  }

  lemma LeaveKeepsInv(s: FenceState, member: AgId, epoch: Epoch, owner: Owner)
    requires Inv(s) && LeaveTree(s, member, epoch, owner).1.status == Ok
    ensures Inv(LeaveTree(s, member, epoch, owner).0)
  {
    var t := LeaveTree(s, member, epoch, owner).0;
    var root := s.rows[member].root;
    var prev := s.rows[root].owner;
    LeaveKeepsForest(s, member, epoch, owner);
    LeaveKeepsLog(s, member, epoch, owner);
    EmitNotices(s.(rows := t.rows), root, epoch + 1, prev, prev, Leave);
    EmitNotices(Emit(s.(rows := t.rows), root, epoch + 1, prev, prev, Leave), member, epoch + 1, prev, prev, Leave);
  }

  // -- Bulk operations -----------------------------------------------------------------------

  /// Distinct roots of `s`, each listed at its current epoch.
  ghost predicate CurrentRoots(s: FenceState, list: seq<AgEpoch>) {
    && (forall i :: 0 <= i < |list| ==>
          list[i].ag in s.rows && s.rows[list[i].ag].root == list[i].ag
          && s.rows[list[i].ag].epoch == list[i].epoch)
    && (forall i, j :: 0 <= i < j < |list| ==> list[i].ag != list[j].ag)
  }

  lemma AgsSnoc(list: seq<AgEpoch>)
    requires list != []
    ensures Ags(list) == Ags(list[..|list| - 1]) + {list[|list| - 1].ag}
  {
    var n := |list| - 1;
    var init := list[..n];
    forall a | a in Ags(list) ensures a in Ags(init) + {list[n].ag} {
      var i :| 0 <= i < |list| && list[i].ag == a;
      if i < n { assert init[i].ag == a; }
    }
    forall a | a in Ags(init) ensures a in Ags(list) {
      var i :| 0 <= i < n && init[i].ag == a;
      assert list[i].ag == a;
    }
  }

  /// A row one epoch later, active under `owner`.
  function AdvancedRow(r: FenceRow, owner: Owner): FenceRow {
    r.(epoch := r.epoch + 1, owner := owner, state := Active)
  }

  /// Each listed tree ends one epoch later under `owner`; every other row is untouched.
  lemma {:induction false} MoveEachRows(s: FenceState, list: seq<AgEpoch>, owner: Owner, cause: AdvanceCause)
    requires Lockstep(s.rows) && CurrentRoots(s, list)
    ensures forall k :: k in s.rows ==>
              MoveEach(s, list, owner, cause).rows[k]
              == if s.rows[k].root in Ags(list) then AdvancedRow(s.rows[k], owner) else s.rows[k]
  {
    if list != [] {
      var n := |list| - 1;
      var init := list[..n];
      MoveEachRows(s, init, owner, cause);
      var u := MoveEach(s, init, owner, cause);
      AgsSnoc(list);
      assert list[n].ag !in Ags(init);
      forall k | k in s.rows
        ensures MoveEach(s, list, owner, cause).rows[k]
                == if s.rows[k].root in Ags(list) then AdvancedRow(s.rows[k], owner) else s.rows[k]
      {
        assert LineOk(s.rows, k);
        assert u.rows[k].root == s.rows[k].root;
        if s.rows[k].root == list[n].ag { assert u.rows[k] == s.rows[k]; }
      }
    }
  }

  /// After the other listed trees moved, the last listed root is still one at its listed epoch.
  lemma LastStaysCurrent(s: FenceState, list: seq<AgEpoch>, owner: Owner, cause: AdvanceCause)
    requires Lockstep(s.rows) && CurrentRoots(s, list) && list != []
    ensures var init, last := list[..|list| - 1], list[|list| - 1];
      && CurrentRoots(s, init) && AllIn(s.rows, init)
      && var u := MoveEach(s, init, owner, cause);
         last.ag in u.rows && u.rows[last.ag].root == last.ag && u.rows[last.ag].epoch == last.epoch
  {
    var n := |list| - 1;
    var init := list[..n];
    assert forall i :: 0 <= i < n ==> init[i] == list[i];
    MoveEachRows(s, init, owner, cause);
    assert list[n].ag !in Ags(init);
  }

  lemma {:induction false} MoveEachKeepsInv(s: FenceState, list: seq<AgEpoch>, owner: Owner, cause: AdvanceCause)
    requires Inv(s) && CurrentRoots(s, list) && owner.IsValid()
    ensures Inv(MoveEach(s, list, owner, cause))
  {
    if list != [] {
      var n := |list| - 1;
      LastStaysCurrent(s, list, owner, cause);
      hide Inv, CurrentRoots, AllIn, MoveTree;
      MoveEachKeepsInv(s, list[..n], owner, cause);
      MoveTreeKeepsInv(MoveEach(s, list[..n], owner, cause), list[n].ag, list[n].epoch + 1, owner, Active, cause);
    }
  }

  lemma AdvanceManyListsRoots(s: FenceState, list: seq<AgEpoch>, owner: Owner)
    requires Inv(s) && AdvanceMany(s, list, owner).1.status == Ok
    ensures CurrentRoots(s, list) && forall i :: 0 <= i < |list| ==> s.rows[list[i].ag].state == Active
  {
    FirstFailureOk(s.rows, list);
    forall i | 0 <= i < |list|
      ensures list[i].ag in s.rows && s.rows[list[i].ag].root == list[i].ag
              && s.rows[list[i].ag].epoch == list[i].epoch && s.rows[list[i].ag].state == Active
              && DistinctAt(list, i)
    {
      assert ListedStatus(s.rows, list, i) == Ok;
    }
  }

  lemma OwnedByListsRoots(s: FenceState, region: RegionId, gen: LeaseGen) returns (list: seq<AgEpoch>)
    requires Inv(s)
    ensures (set k | k in OwnedRoots(s.rows, region, gen) && CollectStatus(s.rows, k) == Ok)
            == OwnedRoots(s.rows, region, gen)
    ensures forall k :: k in InOrder(OwnedRoots(s.rows, region, gen)) ==> k in s.rows
    ensures list == AtCurrentEpoch(s.rows, InOrder(OwnedRoots(s.rows, region, gen)))
    ensures CurrentRoots(s, list) && Ags(list) == OwnedRoots(s.rows, region, gen)
  {
    var roots := OwnedRoots(s.rows, region, gen);
    forall k | k in roots ensures CollectStatus(s.rows, k) == Ok && k in s.rows && s.rows[k].root == k {
      RootsCollect(s.rows, k);
    }
    hide Inv, CollectStatus, OwnedRoots;
    list := RootsInOrder(s, roots);
  }

  /// Any roots, in AG order, from their current epochs.
  lemma RootsInOrder(s: FenceState, roots: set<AgId>) returns (list: seq<AgEpoch>)
    requires forall k :: k in roots ==> k in s.rows && s.rows[k].root == k
    ensures forall k :: k in InOrder(roots) ==> k in s.rows
    ensures list == AtCurrentEpoch(s.rows, InOrder(roots))
    ensures CurrentRoots(s, list) && Ags(list) == roots
  {
    var ids := InOrder(roots);
    InOrderAscends(roots);
    assert forall i :: 0 <= i < |ids| ==> ids[i] in ids;
    hide InOrder;
    list := AtCurrentEpoch(s.rows, ids);
    forall a | a in roots ensures a in Ags(list) {
      assert a in ids;
      var i :| 0 <= i < |ids| && ids[i] == a;
      assert list[i].ag == a;
    }
  }

  /// Recovery moves the region's owned roots, in AG order, from their current epochs.
  lemma OwnedByMoves(s: FenceState, region: RegionId, gen: LeaseGen, owner: Owner) returns (list: seq<AgEpoch>)
    requires Inv(s) && region != 0 && owner.IsValid()
    ensures CurrentRoots(s, list) && Ags(list) == OwnedRoots(s.rows, region, gen)
    ensures |list| == |InOrder(OwnedRoots(s.rows, region, gen))|
    ensures forall i :: 0 <= i < |list| ==> list[i].ag == InOrder(OwnedRoots(s.rows, region, gen))[i]
    ensures AdvanceOwnedBy(s, region, gen, owner)
            == (MoveEach(s, list, owner, Recovery), BulkFenceResult(Ok, Advanced(list)))
  {
    list := OwnedByListsRoots(s, region, gen);
  }

  lemma {:induction false} ManifestStatusOk(rows: Rows, list: seq<AgEpoch>)
    ensures ManifestStatus(rows, list) == Ok <==>
            (forall i :: 0 <= i < |list| ==>
               CollectStatus(rows, list[i].ag) == Ok && rows[list[i].ag].epoch == list[i].epoch)
  {
    if list != [] {
      var init := list[..|list| - 1];
      ManifestStatusOk(rows, init);
      assert forall i :: 0 <= i < |init| ==> init[i] == list[i];
    }
  }

  /// As many distinct AGs as entries means that no entry repeats an AG.
  lemma {:induction false} AsManyAgsAsEntries(list: seq<AgEpoch>)
    ensures |Ags(list)| <= |list|
    ensures |Ags(list)| == |list| <==> forall i, j :: 0 <= i < j < |list| ==> list[i].ag != list[j].ag
  {
    if list != [] {
      var n := |list| - 1;
      var init := list[..n];
      AsManyAgsAsEntries(init);
      AgsSnoc(list);
      if list[n].ag in Ags(init) {
        var i :| 0 <= i < |init| && init[i].ag == list[n].ag;
        assert Ags(list) == Ags(init) && list[i].ag == list[n].ag;
      } else {
        forall i | 0 <= i < n ensures list[i].ag != list[n].ag { assert init[i].ag in Ags(init); }
      }
      assert forall i :: 0 <= i < n ==> init[i] == list[i];
    }
  }

  lemma MigrateListsRoots(s: FenceState, region: RegionId, gen: LeaseGen, to: Owner, list: seq<AgEpoch>)
    requires Inv(s) && MigrateRegion(s, region, gen, to, list).1.status == Ok
    ensures CurrentRoots(s, list) && Ags(list) == RegionRoots(s.rows, region)
  {
    AsManyAgsAsEntries(list);
    ManifestStatusOk(s.rows, list);
  }

  // -- New rows ------------------------------------------------------------------------------

  lemma CreateKeepsForest(s: FenceState, ag: AgId, epoch: Epoch)
    requires Shaped(s) && Lockstep(s.rows)
    ensures Shaped(Create(s, ag, epoch).0) && Lockstep(Create(s, ag, epoch).0.rows)
  {
    var t, depth := Create(s, ag, epoch).0, DepthOf(s);
    if t != s {
      forall k | k in t.rows ensures ShapeOk(t.rows, k, depth) && LineOk(t.rows, k) {
        if k == ag {
          ChainStaysEnded(t.rows, k, 1, depth) by { assert Ancestor(t.rows, k, 1) == NO_AG; }
        } else {
          assert ShapeOk(s.rows, k, depth) && LineOk(s.rows, k);
          NewRowLeavesChain(s.rows, depth, t.rows, k, depth);
        }
      }
      assert ForestShape(t.rows, depth);
    }
  }

  lemma CreateKeepsInv(s: FenceState, ag: AgId, epoch: Epoch)
    requires Inv(s)
    ensures Inv(Create(s, ag, epoch).0)
  {
    CreateKeepsForest(s, ag, epoch);
    hide Shaped, Lockstep;
    var t := Create(s, ag, epoch).0;
    if t != s {
      forall i | 0 <= i < |t.events| ensures EventOk(t.rows, t.events[i]) {
        assert EventOk(s.rows, s.events[i]);
      }
      forall k | k in t.rows && t.rows[k].root == k ensures RootLogged(t, k) {
        if k == ag {
          forall i | 0 <= i < |t.events| ensures t.events[i].ag != k { assert EventOk(s.rows, s.events[i]); }
        } else {
          assert RootLogged(s, k);
          assert Logged(s, k, s.rows[k].epoch, s.rows[k].owner) ==> Logged(t, k, t.rows[k].epoch, t.rows[k].owner);
        }
      }
    }
  }

  lemma {:induction false} NewRowLeavesChain(rows: Rows, depth: nat, more: Rows, k: AgId, n: nat)
    requires ForestShape(rows, depth) && k in rows
    requires rows.Keys < more.Keys && NO_AG !in more && forall j :: j in rows ==> more[j] == rows[j]
    ensures Ancestor(more, k, n) == Ancestor(rows, k, n)
    ensures Ancestor(rows, k, n) != NO_AG ==> Ancestor(rows, k, n) in rows
  {
    if n > 0 {
      NewRowLeavesChain(rows, depth, more, k, n - 1);
      if Ancestor(rows, k, n) != NO_AG { ChainInTree(rows, depth, k, n); }
    }
  }

  // -- All operations ------------------------------------------------------------------------

  /// The rows of the trees an operation selects.
  ghost function Selected(s: FenceState, op: FenceOp): set<AgId> {
    match op
    case OpAdvance(root, _, _, _, _) => Tree(s.rows, root)
    case OpPark(root, _, _, _) => Tree(s.rows, root)
    case OpJoin(member, _, root, _, _) => Tree(s.rows, member) + Tree(s.rows, root)
    case OpLeave(member, _, _) => if member in s.rows then Tree(s.rows, s.rows[member].root) else {}
    case OpAdvanceMany(roots, _) => set k | k in s.rows && s.rows[k].root in Ags(roots)
    case OpAdvanceOwnedBy(region, gen, _) =>
      set k | k in s.rows && s.rows[k].root in OwnedRoots(s.rows, region, gen)
    case OpMigrate(region, _, _, _) => set k | k in s.rows && s.rows[k].root in RegionRoots(s.rows, region)
  }

  lemma FailureChangesNothing(s: FenceState, op: FenceOp)
    requires Inv(s) && Apply(s, op).1.Status() != Ok
    ensures Apply(s, op).0 == s
  {
  }

  lemma ApplyKeepsInv(s: FenceState, op: FenceOp)
    requires Inv(s)
    ensures Inv(Apply(s, op).0)
  {
    if Apply(s, op).1.Status() == Ok {
      match op
      case OpAdvance(root, from, next, owner, cause) => MoveTreeKeepsInv(s, root, next, owner, Active, cause);
      case OpPark(root, e, owner, seqNo) =>
        MoveTreeKeepsInv(s, root, e + 1, NOBODY, Dormant, Park);
        InvIgnoresParkedSeq(MoveTree(s, root, e + 1, NOBODY, Dormant, Park), Tree(s.rows, root), seqNo);
      case OpJoin(member, em, root, er, owner) => JoinKeepsInv(s, member, em, root, er, owner);
      case OpLeave(member, e, owner) => LeaveKeepsInv(s, member, e, owner);
      case OpAdvanceMany(roots, owner) =>
        AdvanceManyListsRoots(s, roots, owner);
        MoveEachKeepsInv(s, roots, owner, Handoff);
      case OpAdvanceOwnedBy(region, gen, owner) =>
        var list := OwnedByListsRoots(s, region, gen);
        MoveEachKeepsInv(s, list, owner, Recovery);
      case OpMigrate(region, gen, to, manifest) =>
        MigrateListsRoots(s, region, gen, to, manifest);
        MoveEachKeepsInv(s, manifest, to, Migrate);
    } else {
      FailureChangesNothing(s, op);
    }
  }

  /// The rows of `ids` gain epoch and every other row is untouched.
  ghost predicate Raises(s: FenceState, t: FenceState, ids: set<AgId>) {
    && t.rows.Keys == s.rows.Keys
    && (forall k :: k in s.rows && k in ids ==> s.rows[k].epoch < t.rows[k].epoch)
    && (forall k :: k in s.rows && k !in ids ==> t.rows[k] == s.rows[k])
  }

  lemma SingleRaises(s: FenceState, op: FenceOp)
    requires Lockstep(s.rows) && (op.OpAdvance? || op.OpPark? || op.OpJoin?)
    requires Apply(s, op).1.Status() == Ok
    ensures Raises(s, Apply(s, op).0, Selected(s, op))
  {
    forall k | k in Selected(s, op) ensures s.rows[k].epoch < Apply(s, op).0.rows[k].epoch {
      assert LineOk(s.rows, k);
    }
  }

  lemma LeaveRaises(s: FenceState, op: FenceOp)
    requires Shaped(s) && Lockstep(s.rows) && op.OpLeave?
    requires Apply(s, op).1.Status() == Ok
    ensures Raises(s, Apply(s, op).0, Selected(s, op))
  {
    DescendantsInTree(s.rows, DepthOf(s), op.member);
    forall k | k in Selected(s, op) ensures s.rows[k].epoch < Apply(s, op).0.rows[k].epoch {
      assert LineOk(s.rows, k);
    }
  }

  lemma MoveEachRaises(s: FenceState, list: seq<AgEpoch>, owner: Owner, cause: AdvanceCause)
    requires Lockstep(s.rows) && CurrentRoots(s, list)
    ensures Raises(s, MoveEach(s, list, owner, cause), set k | k in s.rows && s.rows[k].root in Ags(list))
  {
    MoveEachRows(s, list, owner, cause);
  }

  /// A successful operation raises the epoch of exactly the rows in the trees it selects.
  lemma OkRaisesExactlySelected(s: FenceState, op: FenceOp)
    requires Inv(s) && Apply(s, op).1.Status() == Ok
    ensures Raises(s, Apply(s, op).0, Selected(s, op))
  {
    match op
    case OpAdvance(_, _, _, _, _) => SingleRaises(s, op);
    case OpPark(_, _, _, _) => SingleRaises(s, op);
    case OpJoin(_, _, _, _, _) => SingleRaises(s, op);
    case OpLeave(_, _, _) => LeaveRaises(s, op);
    case OpAdvanceMany(roots, owner) =>
      AdvanceManyListsRoots(s, roots, owner);
      MoveEachRaises(s, roots, owner, Handoff);
    case OpAdvanceOwnedBy(region, gen, owner) =>
      var list := OwnedByListsRoots(s, region, gen);
      MoveEachRaises(s, list, owner, Recovery);
    case OpMigrate(region, gen, to, manifest) =>
      MigrateListsRoots(s, region, gen, to, manifest);
      MoveEachRaises(s, manifest, to, Migrate);
  }
}
