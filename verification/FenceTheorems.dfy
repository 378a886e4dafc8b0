/// What the fence promises over whole runs, and what its compound operations mean
/// (engine/authority/include/helios/authority/fence.h:2-29, engine/authority/src/memory_fence.cpp:237-424).
module FenceTheorems {
  import opened AuthorityTypes
  import opened FenceForest
  import opened FenceInvariant
  import opened FenceSpec
  import opened Naturals
  import opened OrderedSets

  // -- Runs ----------------------------------------------------------------------------------

  datatype StoreStep = NewRow(ag: AgId, epoch: Epoch) | Invoke(op: FenceOp)

  ghost function Take(s: FenceState, step: StoreStep): FenceState {
    match step
    case NewRow(ag, epoch) => Create(s, ag, epoch).0
    case Invoke(op) => Apply(s, op).0
  }

  ghost function Run(s: FenceState, steps: seq<StoreStep>): FenceState
    decreases |steps|
  {
    if steps == [] then s else Take(Run(s, steps[..|steps| - 1]), steps[|steps| - 1])
  }

  function Empty(maxTreeDepth: nat): FenceState {
    FenceState(map[], [], [], maxTreeDepth)
  }

  lemma {:induction false} RunKeepsInv(s: FenceState, steps: seq<StoreStep>)
    requires Inv(s)
    ensures Inv(Run(s, steps))
    decreases |steps|
  {
    if steps != [] {
      var init, last := steps[..|steps| - 1], steps[|steps| - 1];
      RunKeepsInv(s, init);
      match last
      case NewRow(ag, epoch) => CreateKeepsInv(Run(s, init), ag, epoch);
      case Invoke(op) => ApplyKeepsInv(Run(s, init), op);
    }
  }

  /// Every store reached from an empty one is a lockstep forest: each row's chain ends at its root without a
  /// cycle, and within a depth limit from 1 to 64; TreeMismatch cannot happen.
  lemma ReachableIsForest(maxTreeDepth: nat, steps: seq<StoreStep>, k: AgId)
    ensures var s := Run(Empty(maxTreeDepth), steps);
      && CollectStatus(s.rows, k) != TreeMismatch
      && (k in s.rows ==>
            && s.rows[k].root in s.rows && SameLine(s.rows[k], s.rows[s.rows[k].root])
            && (exists n: nat :: (1 <= maxTreeDepth <= WALK_LIMIT ==> n < maxTreeDepth)
                                 && Ancestor(s.rows, k, n) == s.rows[k].root)
            && (forall a: nat, b: nat :: a < b && Ancestor(s.rows, k, a) != NO_AG ==>
                  Ancestor(s.rows, k, a) != Ancestor(s.rows, k, b)))
  {
    NoRowsShaped(Empty(maxTreeDepth));
    RunKeepsInv(Empty(maxTreeDepth), steps);
    var s := Run(Empty(maxTreeDepth), steps);
    RunKeepsLimit(Empty(maxTreeDepth), steps);
    if k in s.rows { Forest(s, k); }
    hide Inv, Run, Ancestor;
  }

  lemma {:induction false} RunKeepsLimit(s: FenceState, steps: seq<StoreStep>)
    ensures Run(s, steps).maxTreeDepth == s.maxTreeDepth
    decreases |steps|
  {
    if steps != [] {
      RunKeepsLimit(s, steps[..|steps| - 1]);
      var last := steps[|steps| - 1];
      if last.Invoke? { ApplyKeepsLimit(Run(s, steps[..|steps| - 1]), last.op); }
    }
  }

  lemma ApplyKeepsLimit(s: FenceState, op: FenceOp)
    ensures Apply(s, op).0.maxTreeDepth == s.maxTreeDepth
  {
  }

  // -- The depth limit -------------------------------------------------------------------------

  /// Every chain of every reachable store reaches its root within the limit.
  ghost predicate LimitHolds(maxTreeDepth: nat) {
    forall steps: seq<StoreStep>, k {:trigger Run(Empty(maxTreeDepth), steps).rows[k]} ::
      k in Run(Empty(maxTreeDepth), steps).rows ==> WithinLimit(Run(Empty(maxTreeDepth), steps).rows, k, maxTreeDepth)
  }

  ghost predicate WithinLimit(rows: Rows, k: AgId, limit: nat)
    requires k in rows
  {
    exists n: nat :: n < limit && Ancestor(rows, k, n) == rows[k].root
  }

  const BUILDER := Owner(1, 1, 1)

  /// The rows 1 to `height` form one chain under `height`, active under one owner.
  ghost predicate Tower(s: FenceState, height: nat) {
    && Inv(s) && height > 0 && (forall k: AgId :: k in s.rows <==> 1 <= k <= height)
    && (forall k: AgId :: 1 <= k <= height ==>
          s.rows[k].root == height && s.rows[k].parent == if k < height then k + 1 else NO_AG)
    && s.rows[height].state == Active && s.rows[height].owner == BUILDER
  }

  lemma {:induction false} TowerChain(s: FenceState, height: nat, n: nat)
    requires Tower(s, height) && n < height
    ensures Ancestor(s.rows, 1, n) == n + 1
  {
    if n > 0 { TowerChain(s, height, n - 1); }
  }

  lemma OneMoreStep(s: FenceState, steps: seq<StoreStep>, step: StoreStep)
    ensures Run(s, steps + [step]) == Take(Run(s, steps), step)
  {
    assert (steps + [step])[..|steps|] == steps;
  }

  /// Creates a row and makes it active.
  lemma Raised(s: FenceState, ag: AgId) returns (t: FenceState)
    requires Inv(s) && ag != NO_AG && ag !in s.rows
    ensures t == Take(Take(s, NewRow(ag, 0)), Invoke(OpAdvance(ag, 0, 1, BUILDER, Load)))
    ensures Inv(t) && t.maxTreeDepth == s.maxTreeDepth
    ensures t.rows == s.rows[ag := FenceRow(ag, ag, NO_AG, 1, BUILDER, Active, 0)]
  {
    var u := Create(s, ag, 0).0;
    CreateKeepsInv(s, ag, 0);
    RootsCollect(u.rows, ag);
    ApplyKeepsInv(u, OpAdvance(ag, 0, 1, BUILDER, Load));
    t := Take(u, Invoke(OpAdvance(ag, 0, 1, BUILDER, Load)));
    forall k | k in s.rows ensures s.rows[k].root != ag { assert ShapeOk(s.rows, k, DepthOf(s)); }
  }

  /// When the program follows fewer rows than the limit, a join under a new root is never refused for its height.
  lemma JoinGrows(u: FenceState, height: nat, e: Epoch)
    requires Inv(u) && height > 0 && u.maxTreeDepth > WALK_LIMIT
    requires height in u.rows && u.rows[height].root == height && u.rows[height].epoch == e
    requires u.rows[height].state == Active && u.rows[height].owner == BUILDER
    requires height + 1 in u.rows
             && u.rows[height + 1] == FenceRow(height + 1, height + 1, NO_AG, 1, BUILDER, Active, 0)
    ensures var members := Tree(u.rows, height);
      JoinTrees(u, height, e, height + 1, 1, BUILDER).0.rows ==
      Moved(Rerooted(u.rows, members, height + 1, height, height + 1), members + Tree(u.rows, height + 1),
            Max(e, 1) + 1,
            BUILDER, Active)
  {
    RootsCollect(u.rows, height);
    RootsCollect(u.rows, height + 1);
    JoinNotRefused(u.rows, height, u.maxTreeDepth - 1);
    hide Inv, CollectStatus, HigherThan, Emit, Moved, Rerooted, Tree;
  }

  lemma TowerGrows(s: FenceState, height: nat) returns (t: FenceState, e: Epoch)
    requires Tower(s, height) && s.maxTreeDepth > WALK_LIMIT
    ensures e == s.rows[height].epoch
    ensures var u := Take(Take(s, NewRow(height + 1, 0)), Invoke(OpAdvance(height + 1, 0, 1, BUILDER, Load)));
      t == Take(u, Invoke(OpJoin(height, e, height + 1, 1, BUILDER)))
    ensures Tower(t, height + 1) && t.maxTreeDepth == s.maxTreeDepth
  {
    hide Inv, JoinTrees, Advance;
    e := s.rows[height].epoch;
    var u := Raised(s, height + 1);
    JoinGrows(u, height, e);
    ApplyKeepsInv(u, OpJoin(height, e, height + 1, 1, BUILDER));
    ApplyKeepsLimit(u, OpJoin(height, e, height + 1, 1, BUILDER));
    t := Take(u, Invoke(OpJoin(height, e, height + 1, 1, BUILDER)));
  }

  lemma JoinNotRefused(rows: Rows, member: AgId, limit: nat)
    requires limit >= WALK_LIMIT
    ensures !HigherThan(rows, member, limit)
  {
  }

  lemma TowerStarts(maxTreeDepth: nat) returns (steps: seq<StoreStep>)
    ensures Tower(Run(Empty(maxTreeDepth), steps), 1)
    ensures Run(Empty(maxTreeDepth), steps).maxTreeDepth == maxTreeDepth
  {
    hide Take, Inv;
    var start := Empty(maxTreeDepth);
    NoRowsShaped(start);
    var t := Raised(start, 1);
    steps := [NewRow(1, 0)];
    OneMoreStep(start, [], NewRow(1, 0));
    OneMoreStep(start, steps, Invoke(OpAdvance(1, 0, 1, BUILDER, Load)));
    assert [] + [NewRow(1, 0)] == steps;
    steps := steps + [Invoke(OpAdvance(1, 0, 1, BUILDER, Load))];
  }

  lemma {:induction false} TowerBuilt(maxTreeDepth: nat, height: nat) returns (steps: seq<StoreStep>)
    requires maxTreeDepth > WALK_LIMIT && height > 0
    ensures Tower(Run(Empty(maxTreeDepth), steps), height)
    ensures Run(Empty(maxTreeDepth), steps).maxTreeDepth == maxTreeDepth
  {
    hide Tower, Take;
    var start := Empty(maxTreeDepth);
    if height == 1 {
      steps := TowerStarts(maxTreeDepth);
    } else {
      steps := TowerBuilt(maxTreeDepth, height - 1);
      var t, e := TowerGrows(Run(start, steps), height - 1);
      OneMoreStep(start, steps, NewRow(height, 0));
      steps := steps + [NewRow(height, 0)];
      OneMoreStep(start, steps, Invoke(OpAdvance(height, 0, 1, BUILDER, Load)));
      steps := steps + [Invoke(OpAdvance(height, 0, 1, BUILDER, Load))];
      OneMoreStep(start, steps, Invoke(OpJoin(height - 1, e, height, 1, BUILDER)));
      steps := steps + [Invoke(OpJoin(height - 1, e, height, 1, BUILDER))];
    }
  }

  /// The depth limit is kept in all runs exactly when it is from 1 to 64: the program follows no more than 64 rows of a
  /// chain when it measures a subtree, so a larger limit is never enforced.
  lemma LimitHoldsIffWalkable(maxTreeDepth: nat)
    ensures LimitHolds(maxTreeDepth) <==> 1 <= maxTreeDepth <= WALK_LIMIT
  {
    if 1 <= maxTreeDepth <= WALK_LIMIT {
      forall steps: seq<StoreStep>, k | k in Run(Empty(maxTreeDepth), steps).rows
        ensures WithinLimit(Run(Empty(maxTreeDepth), steps).rows, k, maxTreeDepth)
      {
        ReachableIsForest(maxTreeDepth, steps, k);
      }
    } else if maxTreeDepth == 0 {
      var steps := [NewRow(1, 0)];
      OneMoreStep(Empty(0), [], NewRow(1, 0));
      assert [] + [NewRow(1, 0)] == steps;
      assert 1 in Run(Empty(0), steps).rows && !WithinLimit(Run(Empty(0), steps).rows, 1, 0);
    } else {
      var height := maxTreeDepth + 1;
      var steps := TowerBuilt(maxTreeDepth, height);
      var s := Run(Empty(maxTreeDepth), steps);
      if n: nat :| n < maxTreeDepth && Ancestor(s.rows, 1, n) == s.rows[1].root {
        TowerChain(s, height, n);
      }
      assert !WithinLimit(s.rows, 1, maxTreeDepth);
    }
  }

  /// Rows are never removed and epochs never fall; the outbox only grows.
  lemma {:induction false} EpochsNeverFall(s: FenceState, steps: seq<StoreStep>)
    requires Inv(s)
    ensures var t := Run(s, steps);
      && s.rows.Keys <= t.rows.Keys
      && (forall k :: k in s.rows ==> s.rows[k].epoch <= t.rows[k].epoch)
    decreases |steps|
  {
    if steps != [] {
      var init, last := steps[..|steps| - 1], steps[|steps| - 1];
      EpochsNeverFall(s, init);
      RunKeepsInv(s, init);
      if last.Invoke? {
        if Apply(Run(s, init), last.op).1.Status() == Ok { OkRaisesExactlySelected(Run(s, init), last.op); }
        else { FailureChangesNothing(Run(s, init), last.op); }
      }
    }
  }

  /// A compare-and-set is won at most once: after a call moved a tree from epoch `e`, no run makes
  /// another advance or park stamped `e` succeed on it.
  lemma StaleNeverWins(s: FenceState, root: AgId, e: Epoch, owner: Owner, cause: AdvanceCause,
                       steps: seq<StoreStep>, late: FenceOp)
    requires Inv(s) && Advance(s, root, e, e + 1, owner, cause).1.status == Ok
    requires (late.OpAdvance? && late.root == root && late.from == e)
             || (late.OpPark? && late.root == root && late.epoch == e)
    ensures var t := Run(Advance(s, root, e, e + 1, owner, cause).0, steps);
      Apply(t, late).1.Status() != Ok && Apply(t, late).0 == t
  {
    var u := Advance(s, root, e, e + 1, owner, cause).0;
    ApplyKeepsInv(s, OpAdvance(root, e, e + 1, owner, cause));
    EpochsNeverFall(u, steps);
    RunKeepsInv(u, steps);
    FailureChangesNothing(Run(u, steps), late);
  }

  /// The newest event of a current root is its row's epoch and owner, and the events of one AG
  /// have strictly increasing epochs.
  lemma NewestEventIsCurrent(maxTreeDepth: nat, steps: seq<StoreStep>, i: nat)
    requires i < |Run(Empty(maxTreeDepth), steps).events|
    ensures var s := Run(Empty(maxTreeDepth), steps);
      var e := s.events[i];
      && e.ag in s.rows
      && (forall j :: i < j < |s.events| && s.events[j].ag == e.ag ==> e.epoch < s.events[j].epoch)
      && (s.rows[e.ag].root == e.ag && (forall j :: i < j < |s.events| ==> s.events[j].ag != e.ag) ==>
            e.epoch == s.rows[e.ag].epoch && e.owner == s.rows[e.ag].owner)
  {
    NoRowsShaped(Empty(maxTreeDepth));
    RunKeepsInv(Empty(maxTreeDepth), steps);
    hide Run, Shaped, Lockstep, NoticesOk;
    NewestEvent(Run(Empty(maxTreeDepth), steps), i);
  }

  lemma NewestEvent(s: FenceState, i: nat)
    requires EventsOk(s) && i < |s.events|
    ensures var e := s.events[i];
      && e.ag in s.rows
      && (forall j :: i < j < |s.events| && s.events[j].ag == e.ag ==> e.epoch < s.events[j].epoch)
      && (s.rows[e.ag].root == e.ag && (forall j :: i < j < |s.events| ==> s.events[j].ag != e.ag) ==>
            e.epoch == s.rows[e.ag].epoch && e.owner == s.rows[e.ag].owner)
  {
    var e := s.events[i];
    assert EventOk(s.rows, e);
    if s.rows[e.ag].root == e.ag {
      assert RootLogged(s, e.ag);
      var j :| 0 <= j < |s.events| && s.events[j].ag == e.ag && s.events[j].epoch == s.rows[e.ag].epoch
               && s.events[j].owner == s.rows[e.ag].owner;
    }
  }

  // -- Bulk operations -----------------------------------------------------------------------

  /// The manifest lists exactly the region's active roots, each once and at its current epoch.
  ghost predicate ExactManifest(s: FenceState, region: RegionId, manifest: seq<AgEpoch>) {
    && (forall i, j :: 0 <= i < j < |manifest| ==> manifest[i].ag != manifest[j].ag)
    && (forall i :: 0 <= i < |manifest| ==>
          manifest[i].ag in RegionRoots(s.rows, region) && s.rows[manifest[i].ag].epoch == manifest[i].epoch)
    && (forall k :: k in RegionRoots(s.rows, region) ==> exists i :: 0 <= i < |manifest| && manifest[i].ag == k)
  }

  /// What migrateRegion checks of a manifest is that it is exact.
  lemma ManifestChecked(s: FenceState, region: RegionId, manifest: seq<AgEpoch>)
    requires Lockstep(s.rows)
    ensures ExactManifest(s, region, manifest) <==>
            Ags(manifest) == RegionRoots(s.rows, region) && |Ags(manifest)| == |manifest|
            && ManifestStatus(s.rows, manifest) == Ok
  {
    AsManyAgsAsEntries(manifest);
    ManifestStatusOk(s.rows, manifest);
    if ExactManifest(s, region, manifest) {
      forall k | k in RegionRoots(s.rows, region) ensures k in Ags(manifest) {
        var i :| 0 <= i < |manifest| && manifest[i].ag == k;
      }
      forall i | 0 <= i < |manifest| ensures CollectStatus(s.rows, manifest[i].ag) == Ok {
        RootsCollect(s.rows, manifest[i].ag);
      }
    }
    if Ags(manifest) == RegionRoots(s.rows, region) {
      forall i | 0 <= i < |manifest| ensures manifest[i].ag in RegionRoots(s.rows, region) {
        assert manifest[i].ag in Ags(manifest);
      }
      forall k | k in RegionRoots(s.rows, region) ensures exists i :: 0 <= i < |manifest| && manifest[i].ag == k {
        assert k in Ags(manifest);
      }
    }
  }

  /// What a successful migration does to the region's trees.
  lemma MigratedTrees(s: FenceState, region: RegionId, to: Owner, manifest: seq<AgEpoch>)
    requires Lockstep(s.rows) && CurrentRoots(s, manifest) && Ags(manifest) == RegionRoots(s.rows, region)
    requires to.region == region
    ensures AllIn(s.rows, manifest)
    ensures var t := MoveEach(s, manifest, to, Migrate);
      && RegionRoots(t.rows, region) == RegionRoots(s.rows, region)
      && forall k :: k in s.rows && s.rows[k].root in RegionRoots(s.rows, region) ==>
           t.rows[k] == AdvancedRow(s.rows[k], to)
  {
    MoveEachRows(s, manifest, to, Migrate);
    hide MoveEach, Lockstep;
  }

  /// A migration succeeds exactly for an exact manifest under the new generation, and then every
  /// tree of the region is active under `to`, one epoch later.
  lemma MigrateIffExact(s: FenceState, region: RegionId, gen: LeaseGen, to: Owner, manifest: seq<AgEpoch>)
    requires Inv(s)
    ensures var (t, r) := MigrateRegion(s, region, gen, to, manifest);
      && (r.status == Ok <==>
            region != 0 && to.IsValid() && to.leaseGen == gen && to.region == region
            && ExactManifest(s, region, manifest))
      && (r.status == Ok ==>
            && RegionRoots(t.rows, region) == RegionRoots(s.rows, region)
            && (forall k :: k in s.rows && s.rows[k].root in RegionRoots(s.rows, region) ==>
                  t.rows[k] == AdvancedRow(s.rows[k], to))
            && r.advanced == Advanced(manifest))
  {
    ManifestChecked(s, region, manifest);
    if MigrateRegion(s, region, gen, to, manifest).1.status == Ok {
      MigrateListsRoots(s, region, gen, to, manifest);
      MigratedTrees(s, region, to, manifest);
    }
    hide ExactManifest, MoveEach, Advanced, AdvancedRow, Ags, RegionRoots, ManifestStatus, Lockstep, Shaped, EventsOk,
      NoticesOk,
      CurrentRoots;
  }

  /// A bundle handoff succeeds exactly when it lists distinct active roots at their current
  /// epochs; then all of them move, and otherwise none does.
  lemma AdvanceManyIsAllOrNothing(s: FenceState, list: seq<AgEpoch>, owner: Owner)
    requires Inv(s)
    ensures var (t, r) := AdvanceMany(s, list, owner);
      && (r.status == Ok <==>
            list != [] && owner.IsValid() && CurrentRoots(s, list)
            && (forall i :: 0 <= i < |list| ==> s.rows[list[i].ag].state == Active))
      && (r.status == Ok ==>
            (forall k :: k in s.rows ==>
               t.rows[k] == if s.rows[k].root in Ags(list) then AdvancedRow(s.rows[k], owner) else s.rows[k]))
      && (r.status != Ok ==> t == s && r.advanced == [])
  {
    FirstFailureOk(s.rows, list);
    if AdvanceMany(s, list, owner).1.status == Ok {
      AdvanceManyListsRoots(s, list, owner);
      MoveEachRows(s, list, owner, Handoff);
    }
    if CurrentRoots(s, list) && forall i :: 0 <= i < |list| ==> s.rows[list[i].ag].state == Active {
      forall i | 0 <= i < |list| ensures ListedStatus(s.rows, list, i) == Ok {
        RootsCollect(s.rows, list[i].ag);
      }
    }
  }

  /// Recovery moves exactly the region's active trees of generation `gen` or older; a dormant row
  /// is never woken, and no tree of a younger generation moves.
  lemma RecoveryMovesOnlyOwnedTrees(s: FenceState, region: RegionId, gen: LeaseGen, owner: Owner)
    requires Inv(s) && region != 0 && owner.IsValid()
    ensures var (t, r) := AdvanceOwnedBy(s, region, gen, owner);
      && r.status == Ok
      && (forall k :: k in s.rows ==>
            t.rows[k] == if s.rows[k].state == Active && s.rows[k].owner.region == region
                            && s.rows[k].owner.leaseGen <= gen
                         then AdvancedRow(s.rows[k], owner) else s.rows[k])
      && (forall i, j :: 0 <= i < j < |r.advanced| ==> r.advanced[i].ag < r.advanced[j].ag)
  {
    var list := OwnedByMoves(s, region, gen, owner);
    MoveEachRows(s, list, owner, Recovery);
    InOrderAscends(OwnedRoots(s.rows, region, gen));
    forall k | k in s.rows
      ensures s.rows[k].root in OwnedRoots(s.rows, region, gen) <==>
              s.rows[k].state == Active && s.rows[k].owner.region == region && s.rows[k].owner.leaseGen <= gen
    {
      assert LineOk(s.rows, k) && ShapeOk(s.rows, k, DepthOf(s));
    }
  }

  // -- Leave undoes join ---------------------------------------------------------------------

  /// Below the joined member are exactly the rows of its former tree.
  lemma JoinedSubtree(s: FenceState, member: AgId, em: Epoch, root: AgId, er: Epoch, owner: Owner)
    requires Inv(s) && JoinTrees(s, member, em, root, er, owner).1.status == Ok
    ensures Descendants(JoinTrees(s, member, em, root, er, owner).0.rows, member) == Tree(s.rows, member)
  {
    var rows, t := s.rows, JoinTrees(s, member, em, root, er, owner).0;
    var depth := DepthOf(s);
    var joined := Rerooted(rows, Tree(rows, member), root, member, root);
    forall k | k in rows ensures Reaches(t.rows, k, member) <==> rows[k].root == member {
      assert ShapeOk(rows, k, depth);
      if rows[k].root == member {
        var n := ChainReachesRoot(rows, depth, k, depth);
        var m := FirstVisit(rows, member, k, n);
        JoinChain(rows, depth, member, root, joined, k, m);
        SameParentsSameChain(joined, t.rows, k, m);
      } else if n: nat :| Ancestor(t.rows, k, n) == member {
        SameParentsSameChain(joined, t.rows, k, n);
        var m := FirstVisit(joined, member, k, n);
        OldChain(rows, depth, member, root, joined, k, m);
        ChainInTree(rows, depth, k, m);
      }
    }
  }

  /// Up to its first visit of the member, a joined chain is the old one.
  lemma {:induction false} OldChain(rows: Rows, depth: nat, member: AgId, root: AgId, joined: Rows, k: AgId, n: nat)
    requires ForestShape(rows, depth) && member in rows && root in rows && member != root
    requires rows[member].root == member && rows[root].root == root && k in rows
    requires joined == Rerooted(rows, Tree(rows, member), root, member, root)
    requires forall m: nat :: m < n ==> Ancestor(joined, k, m) != member
    ensures Ancestor(joined, k, n) == Ancestor(rows, k, n)
  {
    if n > 0 { OldChain(rows, depth, member, root, joined, k, n - 1); }
  }

  /// A leave stamped with the epoch a join returned succeeds and restores every row's root and
  /// parent; both trees end two epochs past the higher of the two epochs, under the root's owner.
  lemma LeaveUndoesJoin(s: FenceState, member: AgId, em: Epoch, root: AgId, er: Epoch, owner: Owner)
    requires Inv(s) && JoinTrees(s, member, em, root, er, owner).1.status == Ok
    ensures var (t, joined) := JoinTrees(s, member, em, root, er, owner);
      var (u, left) := LeaveTree(t, member, joined.epoch, owner);
      && left.status == Ok && left.epoch == Max(em, er) + 2
      && (forall k :: k in s.rows ==>
            u.rows[k] == if k in Tree(s.rows, member) + Tree(s.rows, root)
                         then s.rows[k].(epoch := left.epoch, owner := s.rows[root].owner) else s.rows[k])
  {
    var (t, joined) := JoinTrees(s, member, em, root, er, owner);
    JoinKeepsInv(s, member, em, root, er, owner);
    RootsCollect(t.rows, root);
    JoinedSubtree(s, member, em, root, er, owner);
    forall k | k in s.rows
      ensures k in Tree(t.rows, root) <==> k in Tree(s.rows, member) + Tree(s.rows, root)
      ensures k in Tree(s.rows, member) + Tree(s.rows, root) ==> s.rows[k].state == Active
      ensures ShapeOk(s.rows, k, DepthOf(s))
    {
      assert LineOk(s.rows, k) && ShapeOk(s.rows, k, DepthOf(s));
    }
    assert ShapeOk(s.rows, member, DepthOf(s));
  }
}
