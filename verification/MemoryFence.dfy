/// InMemoryFence: the fence as the program runs it, with rows updated in place, loops over the
/// row map and a queue of deferred calls (engine/authority/src/memory_fence.cpp). Every method is
/// proved against FenceSpec. Row pointers are the AGs they point to.
module MemoryFence {
  import opened AuthorityTypes
  import opened FenceForest
  import opened FenceInvariant
  import opened FenceSpec
  import opened Naturals
  import opened Options
  import opened OrderedSets

  /// A submitted call and the promise of its reply; a Future is an index into the table of calls.
  datatype Call = Call(op: FenceOp, reply: Option<FenceReply>)

  /// What a call completes with while the fence cannot be reached.
  function Unreachable(op: FenceOp): FenceReply {
    if op.OpAdvanceMany? || op.OpAdvanceOwnedBy? || op.OpMigrate? then Bulk(BulkFenceResult(Unavailable, []))
    else Single(FenceResult(Unavailable, 0, NOBODY))
  }

  /// Applies a call, or refuses it while the fence is down.
  ghost function Attempt(s: FenceState, op: FenceOp, down: bool): (FenceState, FenceReply) {
    if down then (s, Unreachable(op)) else Apply(s, op)
  }

  /// The store and the call table after the listed calls ran in order.
  ghost function RunCalls(s: FenceState, calls: seq<Call>, tickets: seq<nat>, down: bool): (FenceState, seq<Call>)
    requires forall i :: 0 <= i < |tickets| ==> tickets[i] < |calls|
    ensures |RunCalls(s, calls, tickets, down).1| == |calls|
    decreases |tickets|
  {
    if tickets == [] then (s, calls)
    else
      var n := |tickets| - 1;
      var (t, done) := RunCalls(s, calls, tickets[..n], down);
      var call := done[tickets[n]];
      var (u, reply) := Attempt(t, call.op, down);
      (u, done[tickets[n] := call.(reply := Some(reply))])
  }

  lemma {:induction false} NoneUnavailable(rows: Rows, list: seq<AgEpoch>)
    ensures FirstFailure(rows, list) != Unavailable && ManifestStatus(rows, list) != Unavailable
  {
    if list != [] { NoneUnavailable(rows, list[..|list| - 1]); }
  }

  /// Only a fence that is down is unavailable.
  lemma NeverUnavailable(s: FenceState, op: FenceOp)
    ensures Apply(s, op).1.Status() != Unavailable
  {
    if op.OpAdvanceMany? { NoneUnavailable(s.rows, op.roots); }
    if op.OpMigrate? { NoneUnavailable(s.rows, op.manifest); }
  }

  lemma AttemptKeepsInv(s: FenceState, op: FenceOp, down: bool)
    requires Inv(s)
    ensures Inv(Attempt(s, op, down).0)
    ensures down ==> Attempt(s, op, down).0 == s && Attempt(s, op, down).1.Status() == Unavailable
    ensures !down ==> Attempt(s, op, down).1.Status() != Unavailable
  {
    ApplyKeepsInv(s, op);
    if !down { NeverUnavailable(s, op); }
  }

  /// Deferred calls run in the order of the queue, each on the store that the one before left, and each gets its own
  /// reply.
  lemma {:induction false} CallsRunInOrder(s: FenceState, calls: seq<Call>, tickets: seq<nat>, down: bool)
      returns (states: seq<FenceState>)
    requires forall i :: 0 <= i < |tickets| ==> tickets[i] < |calls|
    requires forall i, j :: 0 <= i < j < |tickets| ==> tickets[i] != tickets[j]
    ensures |states| == |tickets| + 1 && states[0] == s
    ensures forall i :: 0 <= i < |tickets| ==> states[i + 1] == Attempt(states[i], calls[tickets[i]].op, down).0
    ensures var (t, done) := RunCalls(s, calls, tickets, down);
      && t == states[|tickets|] && |done| == |calls|
      && (forall k :: 0 <= k < |calls| && k !in tickets ==> done[k] == calls[k])
      && forall i :: 0 <= i < |tickets| ==>
           done[tickets[i]] == calls[tickets[i]].(reply := Some(Attempt(states[i], calls[tickets[i]].op, down).1))
    decreases |tickets|
  {
    hide Attempt;
    states := [s];
    if tickets != [] {
      var n := |tickets| - 1;
      var init := tickets[..n];
      var before := CallsRunInOrder(s, calls, init, down);
      assert forall i :: 0 <= i < n ==> init[i] == tickets[i];
      assert tickets[n] !in init;
      assert forall k :: k in tickets <==> k in init || k == tickets[n];
      states := before + [Attempt(before[n], calls[tickets[n]].op, down).0];
    }
  }

  /// `id` reaches `member` over at most `h` rows, if at all.
  ghost predicate Within(rows: Rows, id: AgId, member: AgId, h: nat) {
    forall n: nat :: n < WALK_LIMIT && Ancestor(rows, id, n) == member ==> n + 1 <= h
  }

  /// No row of `keys` is more than `h` rows from `member`, and `deepest` is that far.
  ghost predicate Highest(rows: Rows, keys: seq<AgId>, member: AgId, h: nat, deepest: AgId, steps: nat) {
    && deepest in rows && Ancestor(rows, deepest, steps) == member && steps + 1 == h && steps < WALK_LIMIT
    && forall k {:trigger Within(rows, k, member, h)} :: k in keys ==> Within(rows, k, member, h)
  }

  function WithRootSet(rows: Rows, ids: set<AgId>, root: AgId): Rows {
    map k | k in rows :: if k in ids then rows[k].(root := root) else rows[k]
  }

  function SetOf(ids: seq<AgId>): set<AgId> {
    set i | i in ids
  }

  class InMemoryFence {
    var rows: Rows
    var events: seq<FenceEvent>
    var released: seq<ReleasedNotice>
    const maxTreeDepth: nat
    var deferred: bool
    var unavailable: bool
    var calls: seq<Call>
    var queue: seq<nat>

    ghost function State(): FenceState
      reads this
    {
      FenceState(rows, events, released, maxTreeDepth)
    }

    /// The queue holds unanswered calls in call order.
    ghost predicate QueueOk()
      reads this
    {
      && (forall i :: 0 <= i < |queue| ==> queue[i] < |calls| && calls[queue[i]].reply == None)
      && (forall i, j :: 0 <= i < j < |queue| ==> queue[i] < queue[j])
    }

    ghost predicate Valid()
      reads this
    {
      Inv(State()) && QueueOk()
    }

    constructor (maxTreeDepth: nat := 3, deferred: bool := false)
      ensures Valid() && rows == map[] && events == [] && released == [] && calls == [] && queue == []
      ensures this.maxTreeDepth == maxTreeDepth && this.deferred == deferred && !unavailable
    {
      rows, events, released := map[], [], [];
      this.maxTreeDepth, this.deferred, this.unavailable := maxTreeDepth, deferred, false;
      calls, queue := [], [];
      new;
      NoRowsShaped(State());
    }

    method CreateRow(ag: AgId, epoch: Epoch) returns (ok: bool)
      requires Valid()
      modifies this`rows
      ensures Valid()
      ensures (State(), ok) == Create(old(State()), ag, epoch)
    {
      if ag == NO_AG || ag in rows { return false; }
      CreateKeepsInv(State(), ag, epoch);
      rows := rows[ag := FenceRow(ag, ag, NO_AG, epoch, NOBODY, Dormant, 0)];
      return true;
    }

    // -- Tree helpers ------------------------------------------------------------------------

    method CollectTree(root: AgId) returns (status: FenceStatus, ids: seq<AgId>, epoch: Epoch)
      ensures status == CollectStatus(rows, root) && epoch == CollectEpoch(rows, root)
      ensures status == Ok ==> SetOf(ids) == Tree(rows, root)
    {
      ids, epoch := [], 0;
      if root !in rows { return NotFound, ids, epoch; }
      if rows[root].root != root { return NotRoot, ids, epoch; }
      var keys := InOrder(rows.Keys);
      for i := 0 to |keys|
        invariant forall k :: k in ids ==> k in rows && rows[k].root == root
        invariant forall j :: 0 <= j < i && rows[keys[j]].root == root ==> keys[j] in ids
      {
        assert keys[i] in keys;
        if rows[keys[i]].root == root { ids := ids + [keys[i]]; }
      }
      forall k | k in Tree(rows, root) ensures k in ids { assert k in keys; }
      assert SetOf(ids) == Tree(rows, root);
      var head := rows[root];
      epoch := head.epoch;
      for i := 0 to |ids|
        invariant forall j :: 0 <= j < i ==> SameLine(rows[ids[j]], head)
      {
        assert ids[i] in ids;
        if !SameLine(rows[ids[i]], head) { return TreeMismatch, ids, epoch; }
      }
      forall k | k in Tree(rows, root) ensures SameLine(rows[k], head) {
        assert k in SetOf(ids);
      }
      return Ok, ids, epoch;
    }

    /// One pass over the rows: takes in each row whose parent is in.
    method GrowOnce(below: set<AgId>, ghost member: AgId) returns (more: set<AgId>, grew: bool)
      requires NO_AG !in rows && below <= Descendants(rows, member)
      ensures below <= more <= Descendants(rows, member)
      ensures grew ==> more != below
      ensures !grew ==> more == below && forall k :: k in rows && rows[k].parent in below ==> k in below
    {
      more, grew := below, false;
      var keys := InOrder(rows.Keys);
      for i := 0 to |keys|
        invariant below <= more <= Descendants(rows, member)
        invariant if grew then more != below else more == below
        invariant !grew ==> forall j :: 0 <= j < i && rows[keys[j]].parent in below ==> keys[j] in below
      {
        var id := keys[i];
        assert id in keys;
        var p := rows[id].parent;
        if p != NO_AG && p in more && id !in more {
          ReachesThroughParent(rows, id, member);
          more, grew := more + {id}, true;
        }
      }
      forall k | k in rows && !grew && rows[k].parent in below ensures k in below { assert k in keys; }
    }

    /// Grows the set of rows below `member` until nothing joins it.
    method Subtree(member: AgId) returns (below: set<AgId>)
      requires NO_AG !in rows && member in rows
      ensures below == Descendants(rows, member)
    {
      below := {member};
      assert Ancestor(rows, member, 0) == member;
      var grew := true;
      while grew
        invariant member in below && below <= Descendants(rows, member)
        invariant !grew ==> forall k :: k in rows && rows[k].parent in below ==> k in below
        decreases rows.Keys - below, grew
      {
        ghost var start := below;
        below, grew := GrowOnce(below, member);
        if grew {
          ghost var k :| k in below && k !in start;
          assert k in rows.Keys - start && k !in rows.Keys - below;
        }
      }
      forall k | k in Descendants(rows, member) ensures k in below {
        var n: nat :| Ancestor(rows, k, n) == member;
        ClosedHoldsChain(rows, below, member, k, n);
      }
    }

    /// Walks the parent chain of `id` until it meets `member`, ends, or is 64 rows long: the number of
    /// rows walked.
    method Walk(id: AgId, member: AgId) returns (d: nat, found: bool)
      requires Shaped(State()) && id in rows && member in rows
      ensures found ==> 0 < d <= WALK_LIMIT && Ancestor(rows, id, d - 1) == member
      ensures Within(rows, id, member, if found then d else 0)
    {
      d := 1;
      var p, cur := rows[id].parent, id;
      assert Ancestor(rows, id, 1) == p;
      while cur != member && p != NO_AG && d < WALK_LIMIT
        invariant 1 <= d <= WALK_LIMIT && cur == Ancestor(rows, id, d - 1) && p == Ancestor(rows, id, d)
        invariant forall m: nat :: m < d - 1 ==> Ancestor(rows, id, m) != member
        decreases WALK_LIMIT - d
      {
        cur := p;
        p := if p in rows then rows[p].parent else NO_AG;
        d := d + 1;
      }
      found := cur == member;
      OneVisit(rows, DepthOf(State()), id, member, d);
    }

    /// The longest chain that ends at `member`.
    method SubtreeHeight(member: AgId) returns (height: nat)
      requires Shaped(State()) && member in rows
      ensures IsHeight(rows, member, height)
    {
      height := 1;
      ghost var deepest, steps: nat := member, 0;
      assert Ancestor(rows, member, 0) == member;
      var keys := InOrder(rows.Keys);
      for i := 0 to |keys|
        invariant Highest(rows, keys[..i], member, height, deepest, steps)
      {
        var id := keys[i];
        assert id in keys && keys[..i + 1] == keys[..i] + [id];
        var d, found := Walk(id, member);
        HighestWith(rows, keys[..i], id, member, height, deepest, steps, if found then d else 0);
        if found && d > height {
          height := d;
          deepest, steps := id, d - 1;
        }
      }
      assert keys[..|keys|] == keys;
      HighestOfAll(rows, keys, member, height, deepest, steps);
    }

    method MoveRows(ids: seq<AgId>, next: Epoch, owner: Owner, state: RowState)
      requires SetOf(ids) <= rows.Keys
      modifies this`rows
      ensures rows == Moved(old(rows), SetOf(ids), next, owner, state)
    {
      for i := 0 to |ids|
        invariant rows == Moved(old(rows), SetOf(ids[..i]), next, owner, state)
      {
        assert ids[i] in SetOf(ids) && SetOf(ids[..i + 1]) == SetOf(ids[..i]) + {ids[i]};
        rows := rows[ids[i] := rows[ids[i]].(epoch := next, owner := owner, state := state)];
      }
      assert ids[..|ids|] == ids;
    }

    method EmitEvent(ag: AgId, epoch: Epoch, prev: Owner, owner: Owner, cause: AdvanceCause)
      modifies this`events, this`released
      ensures State() == Emit(old(State()), ag, epoch, prev, owner, cause)
    {
      events := events + [FenceEvent(ag, epoch, prev, owner, cause)];
      var supersedes := cause == Load || cause == Takeover || cause == Recovery;
      if supersedes && prev.IsValid() && prev.cell != owner.cell {
        released := released + [ReleasedNotice(prev.cell, ag, epoch)];
      }
    }

    // -- Operations --------------------------------------------------------------------------

    method DoAdvance(root: AgId, from: Epoch, next: Epoch, owner: Owner, cause: AdvanceCause)
      returns (r: FenceResult)
      requires Inv(State())
      modifies this`rows, this`events, this`released
      ensures (State(), r) == Advance(old(State()), root, from, next, owner, cause)
      ensures Inv(State())
    {
      ApplyKeepsInv(State(), OpAdvance(root, from, next, owner, cause));
      if next != from + 1 || !owner.IsValid() { return FenceResult(InvalidArgument, 0, NOBODY); }
      if cause != Handoff && cause != Load && cause != Takeover && cause != Abort {
        return FenceResult(InvalidArgument, 0, NOBODY);
      }
      var s, ids, current := CollectTree(root);
      if s != Ok { return FenceResult(s, current, NOBODY); }
      var head := rows[root];
      var prev := head.owner;
      if current != from { return FenceResult(Stale, current, prev); }
      var active := head.state == Active;
      match cause {
        case Load => if active { return FenceResult(NeedsTakeover, current, prev); }
        case Takeover =>
        case _ => if !active { return FenceResult(Stale, current, prev); }
      }
      MoveRows(ids, next, owner, Active);
      EmitEvent(root, next, prev, owner, cause);
      return FenceResult(Ok, next, prev);
    }

    method DoPark(root: AgId, e: Epoch, owner: Owner, seqNo: StreamSeq) returns (r: FenceResult)
      requires Inv(State())
      modifies this`rows, this`events, this`released
      ensures (State(), r) == ParkTree(old(State()), root, e, owner, seqNo)
      ensures Inv(State())
    {
      ApplyKeepsInv(State(), OpPark(root, e, owner, seqNo));
      var s, ids, current := CollectTree(root);
      if s != Ok { return FenceResult(s, current, NOBODY); }
      var head := rows[root];
      var prev := head.owner;
      if current != e || head.state != Active || head.owner.cell != owner.cell {
        return FenceResult(Stale, current, prev);
      }
      MoveRows(ids, e + 1, NOBODY, Dormant);
      SetParkedSeq(ids, seqNo);
      EmitEvent(root, e + 1, prev, NOBODY, Park);
      return FenceResult(Ok, e + 1, prev);
    }

    method SetParkedSeq(ids: seq<AgId>, seqNo: StreamSeq)
      requires SetOf(ids) <= rows.Keys
      modifies this`rows
      ensures rows == Parked(old(rows), SetOf(ids), seqNo)
    {
      for i := 0 to |ids|
        invariant rows == Parked(old(rows), SetOf(ids[..i]), seqNo)
      {
        assert ids[i] in SetOf(ids) && SetOf(ids[..i + 1]) == SetOf(ids[..i]) + {ids[i]};
        rows := rows[ids[i] := rows[ids[i]].(parkedSeq := seqNo)];
      }
      assert ids[..|ids|] == ids;
    }

    /// Gives every listed row the root `root`.
    method SetRoot(ids: seq<AgId>, root: AgId)
      requires SetOf(ids) <= rows.Keys
      modifies this`rows
      ensures rows == WithRootSet(old(rows), SetOf(ids), root)
    {
      for i := 0 to |ids|
        invariant rows == WithRootSet(old(rows), SetOf(ids[..i]), root)
      {
        assert ids[i] in SetOf(ids) && SetOf(ids[..i + 1]) == SetOf(ids[..i]) + {ids[i]};
        rows := rows[ids[i] := rows[ids[i]].(root := root)];
      }
      assert ids[..|ids|] == ids;
    }

    method SetParent(member: AgId, parent: AgId)
      requires member in rows
      modifies this`rows
      ensures rows == old(rows)[member := old(rows)[member].(parent := parent)]
    {
      rows := rows[member := rows[member].(parent := parent)];
    }

    /// Puts the member's tree under `root` and moves both trees to `next`.
    method Attach(member: AgId, memberRows: seq<AgId>, root: AgId, rootRows: seq<AgId>, next: Epoch, owner: Owner)
      requires member in rows && root in rows
      requires SetOf(memberRows) == Tree(rows, member) && SetOf(rootRows) == Tree(rows, root)
      modifies this`rows
      ensures rows == Moved(Rerooted(old(rows), Tree(old(rows), member), root, member, root),
                            Tree(old(rows), member) + Tree(old(rows), root), next, owner, Active)
    {
      SetRoot(memberRows, root);
      SetParent(member, root);
      MoveRows(memberRows, next, owner, Active);
      MoveRows(rootRows, next, owner, Active);
      JoinedRows(old(rows), member, root, next, owner);
    }

    method DoJoin(member: AgId, em: Epoch, root: AgId, er: Epoch, owner: Owner) returns (res: FenceResult)
      requires Inv(State())
      modifies this`rows, this`events, this`released
      ensures (State(), res) == JoinTrees(old(State()), member, em, root, er, owner)
      ensures Inv(State())
    {
      ApplyKeepsInv(State(), OpJoin(member, em, root, er, owner));
      if member == root || !owner.IsValid() { return FenceResult(InvalidArgument, 0, NOBODY); }
      var s, memberRows, cm := CollectTree(member);
      if s != Ok { return FenceResult(s, cm, NOBODY); }
      var rootRows, cr;
      s, rootRows, cr := CollectTree(root);
      if s != Ok { return FenceResult(s, cr, NOBODY); }
      var m, r := rows[member], rows[root];
      var memberOwned := m.state == Active && m.owner.cell == owner.cell;
      var rootOwned := r.state == Active && r.owner.cell == owner.cell;
      if cm != em || cr != er || !memberOwned || !rootOwned {
        return FenceResult(Stale, if cm != em then cm else cr, r.owner);
      }
      var height := SubtreeHeight(member);
      HeightDecides(rows, member, height, maxTreeDepth - 1);
      if 1 + height > maxTreeDepth { return FenceResult(InvalidArgument, cr, r.owner); }
      var prev := r.owner;
      var next := Max(em, er) + 1;
      Attach(member, memberRows, root, rootRows, next, r.owner);
      EmitEvent(root, next, prev, prev, Join);
      EmitEvent(member, next, prev, prev, Join);
      return FenceResult(Ok, next, prev);
    }

    method DoLeave(member: AgId, e: Epoch, owner: Owner) returns (res: FenceResult)
      requires Inv(State())
      modifies this`rows, this`events, this`released
      ensures (State(), res) == LeaveTree(old(State()), member, e, owner)
      ensures Inv(State())
    {
      hide Lockstep, EventsOk, NoticesOk, InOrder;
      ApplyKeepsInv(State(), OpLeave(member, e, owner));
      ghost var before := rows;
      if member !in rows { return FenceResult(NotFound, 0, NOBODY); }
      if rows[member].root == member {
        return FenceResult(InvalidArgument, rows[member].epoch, rows[member].owner);
      }
      var root := rows[member].root;
      var s, ids, current := CollectTree(root);
      if s != Ok { return FenceResult(s, current, NOBODY); }
      var head := rows[root];
      var prev := head.owner;
      if current != e || head.state != Active || head.owner.cell != owner.cell {
        return FenceResult(Stale, current, prev);
      }
      var below := Subtree(member);
      var sub := InOrder(below);
      assert SetOf(sub) == below;
      SetRoot(sub, member);
      SetParent(member, NO_AG);
      assert rows == Rerooted(before, below, member, member, NO_AG);
      MoveRows(ids, e + 1, prev, Active);
      EmitEvent(root, e + 1, prev, prev, Leave);
      EmitEvent(member, e + 1, prev, prev, Leave);
      return FenceResult(Ok, e + 1, prev);
    }

    /// Moves one collected tree and logs it.
    method MoveOne(ag: AgId, ids: seq<AgId>, next: Epoch, owner: Owner, cause: AdvanceCause)
      requires ag in rows && SetOf(ids) == Tree(rows, ag)
      modifies this`rows, this`events, this`released
      ensures State() == MoveTree(old(State()), ag, next, owner, Active, cause)
    {
      var prev := rows[ag].owner;
      MoveRows(ids, next, owner, Active);
      EmitEvent(ag, next, prev, owner, cause);
    }

    /// Moves the collected trees of the listed roots one after the other.
    method MoveTrees(list: seq<AgEpoch>, trees: seq<seq<AgId>>, owner: Owner, cause: AdvanceCause)
      returns (advanced: seq<AgEpoch>)
      requires |trees| == |list| && CurrentRoots(State(), list) && Lockstep(rows)
      requires forall i :: 0 <= i < |list| ==> SetOf(trees[i]) == Tree(rows, list[i].ag)
      modifies this`rows, this`events, this`released
      ensures State() == MoveEach(old(State()), list, owner, cause) && advanced == Advanced(list)
    {
      advanced := [];
      ghost var start := State();
      for i := 0 to |list|
        invariant State() == MoveEach(start, list[..i], owner, cause)
        invariant advanced == Advanced(list[..i])
      {
        TreesStay(start, list, i, owner, cause);
        MoveEachStep(start, list, i, owner, cause);
        MoveOne(list[i].ag, trees[i], list[i].epoch + 1, owner, cause);
        advanced := advanced + [AgEpoch(list[i].ag, list[i].epoch + 1)];
      }
      assert list[..|list|] == list;
    }

    /// Collects every listed tree, or finds the first that cannot advance.
    method CollectListed(list: seq<AgEpoch>) returns (status: FenceStatus, trees: seq<seq<AgId>>)
      ensures status == FirstFailure(rows, list)
      ensures status == Ok ==>
                |trees| == |list| && forall i :: 0 <= i < |list| ==> SetOf(trees[i]) == Tree(rows, list[i].ag)
    {
      var seen: set<AgId> := {};
      trees := [];
      for i := 0 to |list|
        invariant seen == Ags(list[..i]) && |trees| == i
        invariant FirstFailure(rows, list[..i]) == Ok
        invariant forall j :: 0 <= j < i ==> SetOf(trees[j]) == Tree(rows, list[j].ag)
      {
        var ae := list[i];
        FirstFailureStep(rows, list, i);
        if ae.ag in seen { return InvalidArgument, trees; }
        var s, ids, current := CollectTree(ae.ag);
        if s != Ok { return s, trees; }
        if current != ae.epoch || rows[ae.ag].state != Active { return Stale, trees; }
        seen := seen + {ae.ag};
        trees := trees + [ids];
      }
      assert list[..|list|] == list;
      return Ok, trees;
    }

    method DoAdvanceMany(list: seq<AgEpoch>, owner: Owner) returns (r: BulkFenceResult)
      requires Inv(State())
      modifies this`rows, this`events, this`released
      ensures (State(), r) == AdvanceMany(old(State()), list, owner)
      ensures Inv(State())
    {
      ApplyKeepsInv(State(), OpAdvanceMany(list, owner));
      if list == [] || !owner.IsValid() { return BulkFenceResult(InvalidArgument, []); }
      var status, trees := CollectListed(list);
      if status != Ok { return BulkFenceResult(status, []); }
      AdvanceManyListsRoots(State(), list, owner);
      var advanced := MoveTrees(list, trees, owner, Handoff);
      return BulkFenceResult(Ok, advanced);
    }

    /// Collects and moves the i-th root's tree. A tree whose rows disagree would be skipped.
    method RecoverOne(root: AgId, owner: Owner, advanced: seq<AgEpoch>,
                      ghost start: FenceState, ghost list: seq<AgEpoch>, ghost i: nat)
      returns (more: seq<AgEpoch>)
      requires Shaped(start) && Lockstep(start.rows) && CurrentRoots(start, list)
      requires owner.IsValid() && i < |list| && root == list[i].ag
      requires AllIn(start.rows, list[..i]) && State() == MoveEach(start, list[..i], owner, Recovery)
      requires advanced == Advanced(list[..i])
      modifies this`rows, this`events, this`released
      ensures AllIn(start.rows, list[..i + 1]) && State() == MoveEach(start, list[..i + 1], owner, Recovery)
      ensures more == Advanced(list[..i + 1])
    {
      hide Shaped, Lockstep, CurrentRoots, MoveEach, MoveTree, Tree, Advanced, AllIn;
      NextRootCollects(start, list, i, owner, Recovery);
      assert rows == State().rows;
      more := advanced;
      var s, ids, current := CollectTree(root);
      if s == Ok {
        MoveOne(root, ids, current + 1, owner, Recovery);
        more := more + [AgEpoch(root, current + 1)];
      }
    }

    /// Recovers the roots in order.
    method RecoverTrees(roots: seq<AgId>, owner: Owner, ghost list: seq<AgEpoch>) returns (advanced: seq<AgEpoch>)
      requires Shaped(State()) && Lockstep(rows) && CurrentRoots(State(), list) && owner.IsValid()
      requires |list| == |roots| && forall i :: 0 <= i < |list| ==> list[i].ag == roots[i]
      modifies this`rows, this`events, this`released
      ensures State() == MoveEach(old(State()), list, owner, Recovery) && advanced == Advanced(list)
    {
      advanced := [];
      ghost var start := State();
      for i := 0 to |roots|
        invariant AllIn(start.rows, list[..i]) && State() == MoveEach(start, list[..i], owner, Recovery)
        invariant advanced == Advanced(list[..i])
      {
        advanced := RecoverOne(roots[i], owner, advanced, start, list, i);
      }
      assert list[..|roots|] == list;
    }

    method DoAdvanceOwnedBy(region: RegionId, gen: LeaseGen, owner: Owner) returns (r: BulkFenceResult)
      requires Inv(State())
      modifies this`rows, this`events, this`released
      ensures (State(), r) == AdvanceOwnedBy(old(State()), region, gen, owner)
      ensures Inv(State())
    {
      if region == 0 || !owner.IsValid() { return BulkFenceResult(InvalidArgument, []); }
      ghost var list := OwnedByMoves(State(), region, gen, owner);
      MoveEachKeepsInv(State(), list, owner, Recovery);
      var advanced := RecoverTrees(InOrder(OwnedRoots(rows, region, gen)), owner, list);
      return BulkFenceResult(Ok, advanced);
    }

    /// Collects every tree of a manifest, or finds the first entry that is not current.
    method CollectManifest(manifest: seq<AgEpoch>) returns (status: FenceStatus, trees: seq<seq<AgId>>)
      ensures status == ManifestStatus(rows, manifest)
      ensures status == Ok ==>
                && |trees| == |manifest|
                && forall i :: 0 <= i < |manifest| ==> SetOf(trees[i]) == Tree(rows, manifest[i].ag)
    {
      trees := [];
      for i := 0 to |manifest|
        invariant |trees| == i && ManifestStatus(rows, manifest[..i]) == Ok
        invariant forall j :: 0 <= j < i ==> SetOf(trees[j]) == Tree(rows, manifest[j].ag)
      {
        assert manifest[..i + 1][..i] == manifest[..i];
        var s, ids, current := CollectTree(manifest[i].ag);
        if s != Ok {
          ManifestStatusDecides(rows, manifest, i + 1);
          return s, [];
        }
        if current != manifest[i].epoch {
          ManifestStatusDecides(rows, manifest, i + 1);
          return Stale, [];
        }
        trees := trees + [ids];
      }
      assert manifest[..|manifest|] == manifest;
      return Ok, trees;
    }

    method DoMigrate(region: RegionId, gen: LeaseGen, to: Owner, manifest: seq<AgEpoch>) returns (r: BulkFenceResult)
      requires Inv(State())
      modifies this`rows, this`events, this`released
      ensures (State(), r) == MigrateRegion(old(State()), region, gen, to, manifest)
      ensures Inv(State())
    {
      hide Inv, Ags, RegionRoots, ManifestStatus, CollectStatus, Tree;
      ApplyKeepsInv(State(), OpMigrate(region, gen, to, manifest));
      if region == 0 || !to.IsValid() || to.leaseGen != gen || to.region != region {
        return BulkFenceResult(InvalidArgument, []);
      }
      var active := RegionRoots(rows, region);
      var listed := Ags(manifest);
      if listed != active || |listed| != |manifest| { return BulkFenceResult(Stale, []); }
      var status, trees := CollectManifest(manifest);
      if status != Ok { return BulkFenceResult(status, []); }
      MigrateListsRoots(State(), region, gen, to, manifest);
      InvLockstep(State());
      var advanced := MoveTrees(manifest, trees, to, Migrate);
      return BulkFenceResult(Ok, advanced);
    }

    // -- Calls, the deferred queue and pump ----------------------------------------------------

    method Perform(op: FenceOp) returns (reply: FenceReply)
      requires Inv(State())
      modifies this`rows, this`events, this`released
      ensures (State(), reply) == Attempt(old(State()), op, unavailable)
      ensures Inv(State())
    {
      if unavailable { return Unreachable(op); }
      match op {
        case OpAdvance(root, from, next, owner, cause) =>
          var r := DoAdvance(root, from, next, owner, cause); return Single(r);
        case OpPark(root, e, owner, seqNo) =>
          var r := DoPark(root, e, owner, seqNo); return Single(r);
        case OpJoin(member, em, root, er, owner) =>
          var r := DoJoin(member, em, root, er, owner); return Single(r);
        case OpLeave(member, e, owner) =>
          var r := DoLeave(member, e, owner); return Single(r);
        case OpAdvanceMany(roots, owner) =>
          var r := DoAdvanceMany(roots, owner); return Bulk(r);
        case OpAdvanceOwnedBy(region, gen, owner) =>
          var r := DoAdvanceOwnedBy(region, gen, owner); return Bulk(r);
        case OpMigrate(region, gen, owner, manifest) =>
          var r := DoMigrate(region, gen, owner, manifest); return Bulk(r);
      }
    }

    /// What submitting a call does to the fence.
    twostate predicate Submitted(op: FenceOp)
      reads this
    {
      if deferred then
        && State() == old(State())
        && calls == old(calls) + [Call(op, None)] && queue == old(queue) + [|old(calls)|]
      else
        var (t, reply) := Attempt(old(State()), op, unavailable);
        && State() == t
        && calls == old(calls) + [Call(op, Some(reply))] && queue == old(queue)
    }

    /// The futures of the calls, by ticket.
    function Futures(): (f: seq<Option<FenceReply>>)
      reads this
      ensures |f| == |calls|
    {
      seq(|calls|, i requires 0 <= i < |calls| reads this => calls[i].reply)
    }

    /// Queues the call while the fence is deferred, and otherwise applies it at once. The ticket
    /// is the Future of its reply.
    method Submit(op: FenceOp) returns (ticket: nat)
      requires Valid()
      modifies this`rows, this`events, this`released, this`calls, this`queue
      ensures Valid() && ticket == |old(calls)| && Submitted(op)
    {
      ticket := |calls|;
      if deferred {
        calls := calls + [Call(op, None)];
        queue := queue + [ticket];
      } else {
        var reply := Perform(op);
        calls := calls + [Call(op, Some(reply))];
      }
    }

    /// Applies up to `maxOps` queued calls in call order.
    method Pump(maxOps: nat) returns (n: nat)
      requires Valid()
      modifies this`rows, this`events, this`released, this`calls, this`queue
      ensures Valid() && n == if maxOps < |old(queue)| then maxOps else |old(queue)|
      ensures queue == old(queue)[n..]
      ensures (State(), calls) == RunCalls(old(State()), old(calls), old(queue)[..n], unavailable)
    {
      hide Inv, Attempt;
      n := if maxOps < |queue| then maxOps else |queue|;
      var batch := queue[..n];
      queue := queue[n..];
      ghost var start, table := State(), calls;
      for i := 0 to n
        invariant Inv(State()) && |calls| == |table| && queue == old(queue)[n..]
        invariant (State(), calls) == RunCalls(start, table, batch[..i], unavailable)
        invariant forall j :: i <= j < |old(queue)| ==> calls[old(queue)[j]] == table[old(queue)[j]]
      {
        assert batch[..i + 1][..i] == batch[..i];
        var reply := Perform(calls[batch[i]].op);
        calls := calls[batch[i] := calls[batch[i]].(reply := Some(reply))];
      }
      assert batch[..n] == batch;
    }
  }

  lemma InvLockstep(s: FenceState)
    requires Inv(s)
    ensures Lockstep(s.rows)
  {
  }

  // -- Facts the loops use -------------------------------------------------------------------

  /// The four passes of join over the row pointers give the rows of the specification.
  lemma JoinedRows(rows: Rows, member: AgId, root: AgId, next: Epoch, owner: Owner)
    requires member in rows && root in rows
    ensures var ms, rs := Tree(rows, member), Tree(rows, root);
      var set1 := WithRootSet(rows, ms, root);
      Moved(Moved(set1[member := set1[member].(parent := root)], ms, next, owner, Active), rs, next, owner, Active)
      == Moved(Rerooted(rows, ms, root, member, root), ms + rs, next, owner, Active)
  {
  }

  lemma HeightDecides(rows: Rows, member: AgId, height: nat, limit: int)
    requires IsHeight(rows, member, height)
    ensures HigherThan(rows, member, limit) <==> height > limit
  {
    var k, n: nat :| k in rows && n < WALK_LIMIT && Ancestor(rows, k, n) == member && n + 1 == height;
    if height > limit { assert HigherThan(rows, member, limit); }
  }

  /// The first failure of a prefix is that of the whole list.
  lemma {:induction false} FirstFailureDecides(rows: Rows, list: seq<AgEpoch>, n: nat)
    requires n <= |list| && FirstFailure(rows, list[..n]) != Ok
    ensures FirstFailure(rows, list) == FirstFailure(rows, list[..n])
  {
    if n < |list| {
      var init := list[..|list| - 1];
      assert init[..n] == list[..n];
      FirstFailureDecides(rows, init, n);
    } else {
      assert list[..n] == list;
    }
  }

  lemma FirstFailureStep(rows: Rows, list: seq<AgEpoch>, i: nat)
    requires i < |list| && FirstFailure(rows, list[..i]) == Ok
    ensures var ae, status := list[i], CollectStatus(rows, list[i].ag);
      var verdict := if ae.ag in Ags(list[..i]) then InvalidArgument
                     else if status != Ok then status
                     else if rows[ae.ag].epoch != ae.epoch || rows[ae.ag].state != Active then Stale else Ok;
      FirstFailure(rows, list[..i + 1]) == verdict && (verdict != Ok ==> FirstFailure(rows, list) == verdict)
    ensures Ags(list[..i + 1]) == Ags(list[..i]) + {list[i].ag}
  {
    var init := list[..i + 1];
    assert init[..i] == list[..i] && init[i] == list[i];
    assert forall j :: 0 <= j < i ==> init[j] == list[j] && list[..i][j] == list[j];
    AgsSnoc(init);
    assert ListedStatus(rows, init, i) == ListedStatus(rows, list, i);
    if !DistinctAt(list, i) {
      var j :| 0 <= j < i && list[j].ag == list[i].ag;
      assert list[..i][j].ag in Ags(list[..i]);
    }
    if FirstFailure(rows, init) != Ok { FirstFailureDecides(rows, list, i + 1); }
  }

  lemma {:induction false} ManifestStatusDecides(rows: Rows, list: seq<AgEpoch>, n: nat)
    requires n <= |list| && ManifestStatus(rows, list[..n]) != Ok
    ensures ManifestStatus(rows, list) == ManifestStatus(rows, list[..n])
  {
    if n < |list| {
      var init := list[..|list| - 1];
      assert init[..n] == list[..n];
      ManifestStatusDecides(rows, init, n);
    } else {
      assert list[..n] == list;
    }
  }

  lemma PrefixOfRoots(s: FenceState, list: seq<AgEpoch>, i: nat)
    requires CurrentRoots(s, list) && i <= |list|
    ensures CurrentRoots(s, list[..i])
    ensures i < |list| ==> list[i].ag !in Ags(list[..i])
  {
    var init := list[..i];
    assert forall j :: 0 <= j < i ==> init[j] == list[j];
  }

  /// While the first listed trees move, the next one stays as it was collected.
  lemma TreesStay(s: FenceState, list: seq<AgEpoch>, i: nat, owner: Owner, cause: AdvanceCause)
    requires Lockstep(s.rows) && CurrentRoots(s, list) && i < |list|
    ensures AllIn(s.rows, list[..i])
    ensures var t := MoveEach(s, list[..i], owner, cause);
      && t.rows[list[i].ag] == s.rows[list[i].ag]
      && Tree(t.rows, list[i].ag) == Tree(s.rows, list[i].ag)
  {
    PrefixOfRoots(s, list, i);
    MoveEachRows(s, list[..i], owner, cause);
  }

  lemma MoveEachStep(s: FenceState, list: seq<AgEpoch>, i: nat, owner: Owner, cause: AdvanceCause)
    requires i < |list| && AllIn(s.rows, list)
    ensures AllIn(s.rows, list[..i]) && AllIn(s.rows, list[..i + 1])
    ensures MoveEach(s, list[..i + 1], owner, cause)
            == MoveTree(MoveEach(s, list[..i], owner, cause), list[i].ag, list[i].epoch + 1, owner, Active, cause)
    ensures Advanced(list[..i + 1]) == Advanced(list[..i]) + [AgEpoch(list[i].ag, list[i].epoch + 1)]
  {
    assert list[..i + 1][..i] == list[..i] && list[..i + 1][i] == list[i];
  }

  lemma PrefixKeepsLockstep(s: FenceState, list: seq<AgEpoch>, i: nat, owner: Owner, cause: AdvanceCause)
    requires Shaped(s) && Lockstep(s.rows) && CurrentRoots(s, list) && owner.IsValid()
    requires i < |list|
    ensures AllIn(s.rows, list[..i]) && Lockstep(MoveEach(s, list[..i], owner, cause).rows)
  {
    PrefixOfRoots(s, list, i);
    MoveEachRows(s, list[..i], owner, cause);
    var t := MoveEach(s, list[..i], owner, cause);
    forall k | k in t.rows ensures LineOk(t.rows, k) {
      assert LineOk(s.rows, k) && ShapeOk(s.rows, k, DepthOf(s));
    }
  }

  /// After the first `i` trees moved, the next root still collects, at its listed epoch.
  lemma NextRootCollects(s: FenceState, list: seq<AgEpoch>, i: nat, owner: Owner, cause: AdvanceCause)
    requires Shaped(s) && Lockstep(s.rows) && CurrentRoots(s, list) && owner.IsValid()
    requires i < |list|
    ensures AllIn(s.rows, list[..i]) && AllIn(s.rows, list[..i + 1])
    ensures var t := MoveEach(s, list[..i], owner, cause);
      && CollectStatus(t.rows, list[i].ag) == Ok && t.rows[list[i].ag].epoch == list[i].epoch
      && MoveEach(s, list[..i + 1], owner, cause)
         == MoveTree(t, list[i].ag, list[i].epoch + 1, owner, Active, cause)
    ensures Advanced(list[..i + 1]) == Advanced(list[..i]) + [AgEpoch(list[i].ag, list[i].epoch + 1)]
  {
    PrefixKeepsLockstep(s, list, i, owner, cause);
    TreesStay(s, list, i, owner, cause);
    MoveEachStep(s, list, i, owner, cause);
    RootsCollect(MoveEach(s, list[..i], owner, cause).rows, list[i].ag);
  }

  lemma HighestWith(rows: Rows, keys: seq<AgId>, id: AgId, member: AgId, h: nat, deepest: AgId, steps: nat, d: nat)
    requires Highest(rows, keys, member, h, deepest, steps) && id in rows && Within(rows, id, member, d)
    requires d <= WALK_LIMIT && (d > 0 ==> Ancestor(rows, id, d - 1) == member)
    ensures if d > h then Highest(rows, keys + [id], member, d, id, d - 1)
            else Highest(rows, keys + [id], member, h, deepest, steps)
  {
    forall k | k in keys + [id] ensures Within(rows, k, member, Max(h, d)) {
      assert if k in keys then Within(rows, k, member, h) else Within(rows, k, member, d);
    }
  }

  lemma HighestOfAll(rows: Rows, keys: seq<AgId>, member: AgId, h: nat, deepest: AgId, steps: nat)
    requires Highest(rows, keys, member, h, deepest, steps) && forall k :: k in rows ==> k in keys
    ensures IsHeight(rows, member, h)
  {
    forall k, n: nat | k in rows && n < WALK_LIMIT && Ancestor(rows, k, n) == member ensures n + 1 <= h {
      assert Within(rows, k, member, h);
    }
  }

  lemma ReachesThroughParent(rows: Rows, k: AgId, member: AgId)
    requires k in rows && rows[k].parent in Descendants(rows, member)
    ensures k in Descendants(rows, member)
  {
    var n: nat :| Ancestor(rows, rows[k].parent, n) == member;
    AncestorAdd(rows, k, 1, n);
    assert Ancestor(rows, k, 1) == rows[k].parent;
    assert Ancestor(rows, k, n + 1) == member;
  }

  lemma {:induction false} ClosedHoldsChain(rows: Rows, below: set<AgId>, member: AgId, k: AgId, n: nat)
    requires NO_AG !in rows && member in below && k in rows && member in rows
    requires forall j :: j in rows && rows[j].parent in below ==> j in below
    requires Ancestor(rows, k, n) == member
    ensures k in below
    decreases n
  {
    if n > 0 {
      var p := rows[k].parent;
      assert Ancestor(rows, k, 1) == p;
      AncestorAdd(rows, k, 1, n - 1);
      if p !in rows { if n > 1 { ChainEnds(rows, p, n - 1); } }
      else { ClosedHoldsChain(rows, below, member, p, n - 1); }
    }
  }

  /// A chain visits `member` at one distance at most, and the walk that stopped after `d` rows
  /// found it or proved that it is not there.
  lemma OneVisit(rows: Rows, depth: nat, k: AgId, member: AgId, d: nat)
    requires ForestShape(rows, depth) && k in rows && member in rows && d > 0
    requires forall m: nat :: m < d - 1 ==> Ancestor(rows, k, m) != member
    requires Ancestor(rows, k, d - 1) == member || Ancestor(rows, k, d) == NO_AG || d == WALK_LIMIT
    ensures forall n: nat :: n < WALK_LIMIT && Ancestor(rows, k, n) == member ==>
              Ancestor(rows, k, d - 1) == member && n + 1 == d
  {
    forall n: nat | n < WALK_LIMIT && Ancestor(rows, k, n) == member
      ensures Ancestor(rows, k, d - 1) == member && n + 1 == d
    {
      if n > d - 1 {
        if Ancestor(rows, k, d - 1) == member { ChainHasNoCycle(rows, depth, k, d - 1, n); }
        else { ChainStaysEnded(rows, k, d, n); }
      }
    }
  }
}
