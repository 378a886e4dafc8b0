/// The forest invariant of the fence store and its preservation by every operation
/// (engine/authority/src/memory_fence.cpp:154-424).
module FenceForest {
  import opened AuthorityTypes
  import opened FenceSpec
  import opened Naturals

  // -- The invariant -------------------------------------------------------------------------

  /// A root has no parent, a member's parent is in the same tree, and the parent chain of every
  /// row ends within `depth` rows (so it has no cycle).
  ghost predicate ShapeOk(rows: Rows, k: AgId, depth: nat)
    requires k in rows
  {
    var r := rows[k];
    && r.ag == k
    && r.root in rows && rows[r.root].root == r.root
    && (r.parent == NO_AG <==> r.root == k)
    && (r.parent != NO_AG ==> r.parent in rows && rows[r.parent].root == r.root)
    && Ancestor(rows, k, depth) == NO_AG
  }

  /// A row carries its root's epoch, owner and state, and is active exactly when it is owned.
  ghost predicate LineOk(rows: Rows, k: AgId)
    requires k in rows
  {
    var r := rows[k];
    && r.root in rows && SameLine(r, rows[r.root])
    && (r.state == Active ==> r.owner.IsValid())
    && (r.state == Dormant ==> r.owner == NOBODY)
  }

  ghost predicate ForestShape(rows: Rows, depth: nat) {
    NO_AG !in rows && forall k {:trigger ShapeOk(rows, k, depth)} :: k in rows ==> ShapeOk(rows, k, depth)
  }

  ghost predicate Lockstep(rows: Rows) {
    forall k {:trigger LineOk(rows, k)} :: k in rows ==> LineOk(rows, k)
  }

  /// Some event of `ag` carries the row's epoch and owner.
  ghost predicate Logged(s: FenceState, ag: AgId, epoch: Epoch, owner: Owner) {
    exists i :: 0 <= i < |s.events| && s.events[i].ag == ag && s.events[i].epoch == epoch
                && s.events[i].owner == owner
  }

  /// An event's epoch never exceeds its row's; when it equals it, the row has the event's owner.
  ghost predicate EventOk(rows: Rows, e: FenceEvent) {
    && e.ag in rows && e.epoch <= rows[e.ag].epoch
    && (e.epoch == rows[e.ag].epoch ==> rows[e.ag].owner == e.owner)
  }

  /// A root's current epoch and owner are in the log, unless it was never advanced.
  ghost predicate RootLogged(s: FenceState, k: AgId)
    requires k in s.rows
  {
    Logged(s, k, s.rows[k].epoch, s.rows[k].owner)
    || (s.rows[k].state == Dormant && forall i :: 0 <= i < |s.events| ==> s.events[i].ag != k)
  }

  ghost predicate EventsOk(s: FenceState) {
    && (forall i :: 0 <= i < |s.events| ==> EventOk(s.rows, s.events[i]))
    && (forall i, j :: 0 <= i < j < |s.events| && s.events[i].ag == s.events[j].ag ==>
          s.events[i].epoch < s.events[j].epoch)
    && (forall k {:trigger RootLogged(s, k)} :: k in s.rows && s.rows[k].root == k ==> RootLogged(s, k))
  }

  /// A notice names the cell that a logged load, takeover or recovery superseded.
  ghost predicate NoticesOk(s: FenceState) {
    forall n :: n in s.released ==>
      exists i :: 0 <= i < |s.events| && s.events[i].ag == n.ag && s.events[i].epoch == n.epoch
                  && s.events[i].previousOwner.cell == n.cell != s.events[i].owner.cell
                  && s.events[i].cause in {Load, Takeover, Recovery}
  }

  /// The depth that a limit keeps: beyond the rows it follows, the program keeps none.
  predicate DepthFits(maxTreeDepth: nat, depth: nat) {
    if maxTreeDepth <= WALK_LIMIT then depth == Max(maxTreeDepth, 1) else depth > 0
  }

  ghost predicate Shaped(s: FenceState) {
    exists depth: nat {:trigger ForestShape(s.rows, depth)} ::
      DepthFits(s.maxTreeDepth, depth) && ForestShape(s.rows, depth)
  }

  /// A depth that the store's forest keeps: the limit when it is from 1 to 64.
  ghost function DepthOf(s: FenceState): (depth: nat)
    requires Shaped(s)
    ensures DepthFits(s.maxTreeDepth, depth) && ForestShape(s.rows, depth)
  {
    var depth: nat :| DepthFits(s.maxTreeDepth, depth) && ForestShape(s.rows, depth);
    depth
  }

  lemma NoRowsShaped(s: FenceState)
    requires s.rows == map[]
    ensures Shaped(s)
  {
    assert ForestShape(s.rows, if s.maxTreeDepth <= WALK_LIMIT then Max(s.maxTreeDepth, 1) else 1);
  }

  ghost predicate Inv(s: FenceState) {
    && Shaped(s)
    && Lockstep(s.rows)
    && EventsOk(s)
    && NoticesOk(s)
  }

  // -- Parent chains -------------------------------------------------------------------------

  lemma {:induction false} AncestorAdd(rows: Rows, id: AgId, a: nat, b: nat)
    ensures Ancestor(rows, id, a + b) == Ancestor(rows, Ancestor(rows, id, a), b)
  {
    if b > 0 { AncestorAdd(rows, id, a, b - 1); }
  }

  lemma {:induction false} ChainEnds(rows: Rows, id: AgId, n: nat)
    requires NO_AG !in rows && id !in rows && n > 0
    ensures Ancestor(rows, id, n) == NO_AG
  {
    if n > 1 { ChainEnds(rows, id, n - 1); }
  }

  /// Past the end of a chain there is nothing.
  lemma ChainStaysEnded(rows: Rows, id: AgId, n: nat, m: nat)
    requires NO_AG !in rows && Ancestor(rows, id, n) == NO_AG && n <= m
    ensures Ancestor(rows, id, m) == NO_AG
  {
    AncestorAdd(rows, id, n, m - n);
    if n < m { ChainEnds(rows, NO_AG, m - n); }
  }

  lemma {:induction false} SameParentsSameChain(rows: Rows, other: Rows, id: AgId, n: nat)
    requires rows.Keys == other.Keys
    requires forall k :: k in rows ==> rows[k].parent == other[k].parent
    ensures Ancestor(rows, id, n) == Ancestor(other, id, n)
  {
    if n > 0 { SameParentsSameChain(rows, other, id, n - 1); }
  }

  /// A chain never leaves its tree.
  lemma {:induction false} ChainInTree(rows: Rows, depth: nat, k: AgId, n: nat)
    requires ForestShape(rows, depth) && k in rows && Ancestor(rows, k, n) != NO_AG
    ensures Ancestor(rows, k, n) in rows && rows[Ancestor(rows, k, n)].root == rows[k].root
  {
    if n > 0 {
      if Ancestor(rows, k, n - 1) == NO_AG { assert false; }
      ChainInTree(rows, depth, k, n - 1);
      assert ShapeOk(rows, Ancestor(rows, k, n - 1), depth);
    }
  }

  lemma {:induction false} ChainReachesRoot(rows: Rows, depth: nat, k: AgId, m: nat) returns (n: nat)
    requires ForestShape(rows, depth) && k in rows && Ancestor(rows, k, m) == NO_AG
    ensures n < m && Ancestor(rows, k, n) == rows[k].root
  {
    if m == 0 { assert false; }
    if Ancestor(rows, k, m - 1) == NO_AG {
      n := ChainReachesRoot(rows, depth, k, m - 1);
    } else {
      n := m - 1;
      ChainInTree(rows, depth, k, n);
      assert ShapeOk(rows, Ancestor(rows, k, n), depth);
    }
  }

  /// No chain visits a row twice.
  lemma ChainHasNoCycle(rows: Rows, depth: nat, k: AgId, a: nat, b: nat)
    requires ForestShape(rows, depth) && k in rows && a < b && Ancestor(rows, k, a) != NO_AG
    ensures Ancestor(rows, k, a) != Ancestor(rows, k, b)
  {
    if Ancestor(rows, k, a) == Ancestor(rows, k, b) {
      var id := Ancestor(rows, k, a);
      ChainInTree(rows, depth, k, a);
      assert ShapeOk(rows, id, depth);
      AncestorAdd(rows, k, a, b - a);
      Loops(rows, id, b - a, depth);
      ChainStaysEnded(rows, id, depth, depth * (b - a));
    }
  }

  lemma {:induction false} Loops(rows: Rows, id: AgId, p: nat, times: nat)
    requires Ancestor(rows, id, p) == id && p > 0
    ensures Ancestor(rows, id, times * p) == id && times * p >= times
  {
    if times > 0 {
      Loops(rows, id, p, times - 1);
      AncestorAdd(rows, id, p, (times - 1) * p);
      assert p + (times - 1) * p == times * p;
    }
  }

  /// The forest property: rows that share a root form one tree whose chains end at that root, without a
  /// cycle, and within `maxTreeDepth` rows when that is from 1 to 64.
  lemma Forest(s: FenceState, k: AgId)
    requires Inv(s) && k in s.rows
    ensures exists n: nat :: (1 <= s.maxTreeDepth <= WALK_LIMIT ==> n < s.maxTreeDepth)
                             && Ancestor(s.rows, k, n) == s.rows[k].root
    ensures forall a: nat, b: nat :: a < b && Ancestor(s.rows, k, a) != NO_AG ==>
              Ancestor(s.rows, k, a) != Ancestor(s.rows, k, b)
    ensures s.rows[k].root in s.rows && SameLine(s.rows[k], s.rows[s.rows[k].root])
    ensures CollectStatus(s.rows, k) != TreeMismatch
  {
    var depth := DepthOf(s);
    assert ShapeOk(s.rows, k, depth) && LineOk(s.rows, k);
    var n := ChainReachesRoot(s.rows, depth, k, depth);
    forall a: nat, b: nat | a < b && Ancestor(s.rows, k, a) != NO_AG
      ensures Ancestor(s.rows, k, a) != Ancestor(s.rows, k, b)
    {
      ChainHasNoCycle(s.rows, depth, k, a, b);
    }
    forall j | j in Tree(s.rows, k) ensures SameLine(s.rows[j], s.rows[k]) {
      assert LineOk(s.rows, j);
    }
  }

  /// collectTree cannot fail on a root.
  lemma RootsCollect(rows: Rows, root: AgId)
    requires Lockstep(rows)
    ensures CollectStatus(rows, root) ==
            if root !in rows then NotFound else if rows[root].root != root then NotRoot else Ok
  {
    if root in rows && rows[root].root == root {
      forall j | j in Tree(rows, root) ensures SameLine(rows[j], rows[root]) {
        assert LineOk(rows, j);
      }
    }
  }

  // -- Rerooting: join and leave -------------------------------------------------------------

  /// Distances in the joined tree: a chain that reaches the member continues with the root.
  lemma {:induction false} JoinChain(rows: Rows, depth: nat, member: AgId, root: AgId, joined: Rows, k: AgId, n: nat)
    requires ForestShape(rows, depth) && member in rows && root in rows && member != root
    requires rows[member].root == member && rows[root].root == root
    requires joined == Rerooted(rows, Tree(rows, member), root, member, root)
    requires k in rows
    requires forall m: nat :: m < n ==> Ancestor(rows, k, m) != member
    ensures Ancestor(joined, k, n) == Ancestor(rows, k, n)
  {
    if n > 0 { JoinChain(rows, depth, member, root, joined, k, n - 1); }
  }

  /// No chain of more than `limit` rows ends at `member`.
  ghost predicate NoneHigher(rows: Rows, member: AgId, limit: int) {
    forall k, n: nat :: k in rows && Ancestor(rows, k, n) == member ==> n + 1 <= limit
  }

  lemma ChainsAreShort(rows: Rows, depth: nat, member: AgId)
    requires ForestShape(rows, depth) && member in rows
    ensures NoneHigher(rows, member, depth)
  {
    forall k, n: nat | k in rows && Ancestor(rows, k, n) == member ensures n + 1 <= depth {
      assert ShapeOk(rows, k, depth);
      if n >= depth { ChainStaysEnded(rows, k, depth, n); }
    }
  }

  lemma Deeper(rows: Rows, depth: nat, more: nat)
    requires ForestShape(rows, depth) && depth <= more
    ensures ForestShape(rows, more)
  {
    forall k | k in rows ensures ShapeOk(rows, k, more) {
      assert ShapeOk(rows, k, depth);
      ChainStaysEnded(rows, k, depth, more);
    }
  }

  lemma JoinShape(rows: Rows, depth: nat, member: AgId, root: AgId)
    requires ForestShape(rows, depth) && member in rows && root in rows && member != root
    requires rows[member].root == member && rows[root].root == root
    requires NoneHigher(rows, member, depth - 1)
    ensures ForestShape(Rerooted(rows, Tree(rows, member), root, member, root), depth)
  {
    var joined := Rerooted(rows, Tree(rows, member), root, member, root);
    forall k | k in joined ensures ShapeOk(joined, k, depth) {
      assert ShapeOk(rows, k, depth) && ShapeOk(rows, member, depth) && ShapeOk(rows, root, depth);
      var n := ChainReachesRoot(rows, depth, k, depth);
      if rows[k].root == member {
        assert Ancestor(rows, k, n) == member && n + 1 <= depth - 1;
        forall m: nat | m < n ensures Ancestor(rows, k, m) != member {
          if Ancestor(rows, k, m) == member { ChainHasNoCycle(rows, depth, k, m, n); }
        }
        JoinChain(rows, depth, member, root, joined, k, n);
        assert Ancestor(joined, k, n + 1) == root && Ancestor(joined, k, n + 2) == NO_AG;
        ChainStaysEnded(joined, k, n + 2, depth);
      } else {
        forall m: nat | m < depth ensures Ancestor(rows, k, m) != member {
          if Ancestor(rows, k, m) == member { ChainInTree(rows, depth, k, m); }
        }
        JoinChain(rows, depth, member, root, joined, k, depth);
      }
    }
  }

  /// A chain that does not pass the leaving member is unchanged.
  lemma {:induction false} LeaveChain(rows: Rows, member: AgId, left: Rows, k: AgId, n: nat)
    requires member in rows && k in rows
    requires left == Rerooted(rows, Descendants(rows, member), member, member, NO_AG)
    requires forall m: nat :: m < n ==> Ancestor(rows, k, m) != member
    ensures Ancestor(left, k, n) == Ancestor(rows, k, n)
  {
    if n > 0 { LeaveChain(rows, member, left, k, n - 1); }
  }

  /// The children of the member's rows are the member's too, and no other row's chain enters them.
  lemma DescendantsClosed(rows: Rows, depth: nat, member: AgId, k: AgId)
    requires ForestShape(rows, depth) && member in rows && k in rows && k != member
    ensures k in Descendants(rows, member) <==>
            rows[k].parent != NO_AG && rows[k].parent in Descendants(rows, member)
  {
    var p := rows[k].parent;
    assert ShapeOk(rows, k, depth);
    assert Ancestor(rows, k, 0) == k && Ancestor(rows, k, 1) == p;
    if k in Descendants(rows, member) {
      var n: nat :| Ancestor(rows, k, n) == member;
      assert n > 0;
      AncestorAdd(rows, k, 1, n - 1);
      if p == NO_AG && n > 1 { ChainEnds(rows, p, n - 1); }
      assert Reaches(rows, p, member);
    }
    if p != NO_AG && p in Descendants(rows, member) {
      var n: nat :| Ancestor(rows, p, n) == member;
      AncestorAdd(rows, k, 1, n);
      assert Reaches(rows, k, member);
    }
  }

  lemma DescendantsInTree(rows: Rows, depth: nat, member: AgId)
    requires ForestShape(rows, depth) && member in rows
    ensures member in Descendants(rows, member)
    ensures forall k :: k in Descendants(rows, member) ==> rows[k].root == rows[member].root
    ensures rows[member].root != member ==> rows[member].root !in Descendants(rows, member)
  {
    assert Ancestor(rows, member, 0) == member;
    forall k | k in Descendants(rows, member) ensures rows[k].root == rows[member].root {
      var n: nat :| Ancestor(rows, k, n) == member;
      ChainInTree(rows, depth, k, n);
    }
    var root := rows[member].root;
    if root != member && root in Descendants(rows, member) {
      assert ShapeOk(rows, member, depth) && ShapeOk(rows, root, depth);
      DescendantsClosed(rows, depth, member, root);
    }
  }

  /// `k` is not the member's descendant, or reaches it at a first distance.
  lemma {:induction false} FirstVisit(rows: Rows, member: AgId, k: AgId, n: nat) returns (m: nat)
    requires Ancestor(rows, k, n) == member
    ensures m <= n && Ancestor(rows, k, m) == member && forall i: nat :: i < m ==> Ancestor(rows, k, i) != member
  {
    m := n;
    if i: nat :| i < n && Ancestor(rows, k, i) == member { m := FirstVisit(rows, member, k, i); }
  }

  lemma LeaveShape(rows: Rows, depth: nat, member: AgId)
    requires ForestShape(rows, depth) && member in rows && rows[member].root != member
    ensures ForestShape(Rerooted(rows, Descendants(rows, member), member, member, NO_AG), depth)
  {
    var sub := Descendants(rows, member);
    var left := Rerooted(rows, sub, member, member, NO_AG);
    DescendantsInTree(rows, depth, member);
    forall k | k in left ensures ShapeOk(left, k, depth) {
      assert ShapeOk(rows, k, depth) && ShapeOk(rows, member, depth);
      RootsAreNotBelow(rows, depth, member, k);
      if k != member { DescendantsClosed(rows, depth, member, k); }
      if n: nat :| n < depth && Ancestor(rows, k, n) == member {
        var m := FirstVisit(rows, member, k, n);
        LeaveChain(rows, member, left, k, m);
        assert Ancestor(left, k, m + 1) == NO_AG;
        ChainStaysEnded(left, k, m + 1, depth);
      } else {
        LeaveChain(rows, member, left, k, depth);
      }
    }
  }

  /// No root is below a member that is not a root itself.
  lemma RootsAreNotBelow(rows: Rows, depth: nat, member: AgId, k: AgId)
    requires ForestShape(rows, depth) && member in rows && k in rows
    requires rows[member].root != member
    ensures rows[k].root !in Descendants(rows, member)
  {
    assert ShapeOk(rows, k, depth) && ShapeOk(rows, rows[k].root, depth);
    DescendantsInTree(rows, depth, member);
  }
}
