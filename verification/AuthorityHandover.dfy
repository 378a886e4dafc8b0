/// How a tree leaves a table: what a poll and a release notice do to each tracking, and why a cell whose tree was taken
/// never acts on it again (engine/authority/src/ag_table.cpp:45-96).
module AuthorityHandover {
  import opened AgTables
  import opened AuthoritySystem
  import opened AuthorityTypes
  import opened FenceForest
  import opened FenceInvariant
  import opened FenceOutcomes
  import opened FenceSpec
  import opened MemoryFence
  import opened Options

  // -- Release notices -----------------------------------------------------------------------

  /// A notice ends exactly the trackings of its tree that stand for an older epoch: while loading, the epoch that the
  /// load asks for. Nothing else changes.
  lemma NoticeDrops(s: System, x: TableId, n: ReleasedNotice)
    requires Enabled(s, DeliverReleased(x, n))
    ensures var t := Do(s, DeliverReleased(x, n));
      && x in t.tables && t == s.(tables := s.tables[x := t.tables[x]])
      && var (was, now) := (s.tables[x], t.tables[x]);
         && now == was.(records := now.records)
         && (forall k :: k in now.records <==>
               k in was.records
               && (k == n.ag ==>
                     n.epoch <= was.records[k].epoch + if was.records[k].state == Loading then 1 else 0))
         && (forall k :: k in now.records ==> now.records[k] == was.records[k])
  {
  }

  // -- Calls ---------------------------------------------------------------------------------

  /// Any tree that is not tracked can be loaded: the call asks for the next epoch, as a takeover only on request, and
  /// the tracking waits for it under an incarnation that no call before it had.
  lemma LoadTracks(s: System, x: TableId, root: AgId, epoch: Epoch, takeover: bool)
    requires SystemInv(s) && x in s.tables
    ensures Enabled(s, LoadTree(x, root, epoch, takeover)) <==> root != NO_AG && root !in s.tables[x].records
    ensures Enabled(s, LoadTree(x, root, epoch, takeover)) ==>
              var t := Do(s, LoadTree(x, root, epoch, takeover));
              && x in t.tables && root in t.tables[x].records
              && var (was, now) := (s.tables[x], t.tables[x]);
                 var tracked := now.records[root];
                 var op := OpAdvance(root, epoch, epoch + 1, was.owner, if takeover then Takeover else Load);
                 && t == s.(calls := s.calls + [InFlight(Some(x), op, None, false)], tables := s.tables[x := now])
                 && now.owner == was.owner && now.records == was.records[root := tracked]
                 && tracked.epoch == epoch && tracked.state == Loading && tracked.fenceOpsInFlight == 1
                 && now.pending == was.pending + [Pending(root, PendingLoad, tracked.incarnation, |s.calls|)]
                 && (forall p :: p in was.pending ==> p.incarnation < tracked.incarnation)
                 && (forall k :: k in was.records ==> was.records[k].incarnation < tracked.incarnation)
  {
    assert TableOk(x, s.tables[x], s.calls);
  }

  /// A held tree, and no other, can be parked: the call is stamped with the epoch held, and the gate shuts.
  lemma ParkWaits(s: System, x: TableId, root: AgId, seqNo: StreamSeq)
    requires SystemInv(s) && x in s.tables
    ensures Enabled(s, ParkTreeOf(x, root, seqNo)) <==> exists epoch :: Holds(s, x, root, epoch)
    ensures Enabled(s, ParkTreeOf(x, root, seqNo)) ==>
              var t := Do(s, ParkTreeOf(x, root, seqNo));
              && x in t.tables && root in s.tables[x].records
              && var (was, now) := (s.tables[x], t.tables[x]);
                 var rec := was.records[root];
                 var op := OpPark(root, rec.epoch, was.owner, seqNo);
                 && t == s.(calls := s.calls + [InFlight(Some(x), op, None, false)], tables := s.tables[x := now])
                 && now == was.(records := was.records[root := AgRecord(rec.epoch, Parking, 1, rec.incarnation)],
                                pending := was.pending + [Pending(root, PendingPark, rec.incarnation, |s.calls|)])
  {
    var t := s.tables[x];
    if root in t.records && t.records[root].state == Held {
      assert TableOk(x, t, s.calls) && RecordOk(x, t.owner.cell, t.records, t.pending, root, s.calls);
      assert Holds(s, x, root, t.records[root].epoch);
    }
  }

  /// Dropping everything forgets every tracking and every reply still to come.
  lemma DropForgets(s: System, x: TableId)
    requires x in s.tables
    ensures Enabled(s, DropAll(x)) && x in Do(s, DropAll(x)).tables
    ensures var t := Do(s, DropAll(x)); var now := t.tables[x];
      && t == s.(tables := s.tables[x := now])
      && now == s.tables[x].(records := now.records, pending := now.pending)
      && now.pending == [] && forall k :: k !in now.records
  {
  }

  // -- Replies -------------------------------------------------------------------------------

  /// The reply to the pending call has arrived.
  predicate Answered(p: Pending, calls: seq<InFlight>)
    requires p.ticket < |calls|
  {
    calls[p.ticket].ready && calls[p.ticket].result.Some?
  }

  /// What a poll makes of the tracking that waits for `p`: a won load is held at the epoch it asked for, a lost call
  /// and a park end the tracking, and without an answer nothing changes.
  ghost predicate Decided(was: Records, now: Records, p: Pending, calls: seq<InFlight>)
    requires p.ticket < |calls| && p.root in was
  {
    if !Answered(p, calls) then p.root in now && now[p.root] == was[p.root]
    else if was[p.root].state == Loading && calls[p.ticket].result.value.Status() == Ok && calls[p.ticket].op.OpAdvance?
    then p.root in now && now[p.root] == AgRecord(calls[p.ticket].op.next, Held, 0, p.incarnation)
    else p.root !in now
  }

  lemma {:induction false} PolledLeaves(records: Records, rest: seq<Pending>, futures: seq<Option<FenceReply>>, k: AgId)
    requires AllRedeemable(rest, futures)
    requires forall p :: p in rest && p.root == k && k in records ==> p.incarnation != records[k].incarnation
    ensures var now := Polled(records, rest, futures).0;
      (k in now <==> k in records) && (k in now ==> now[k] == records[k])
    decreases |rest|
  {
    if rest != [] {
      var p := rest[0];
      assert p in rest && forall q :: q in rest[1..] ==> q in rest;
      PolledLeaves(if futures[p.ticket].None? then records
                   else ApplyReply(records, p, futures[p.ticket].value.result), rest[1..], futures, k);
    }
  }

  lemma {:induction false} PolledKeeps(records: Records, rest: seq<Pending>, futures: seq<Option<FenceReply>>)
    requires AllRedeemable(rest, futures)
    ensures forall p :: p in Polled(records, rest, futures).1 <==> p in rest && futures[p.ticket].None?
    decreases |rest|
  {
    if rest != [] {
      var p := rest[0];
      PolledKeeps(if futures[p.ticket].None? then records
                  else ApplyReply(records, p, futures[p.ticket].value.result), rest[1..], futures);
      assert forall q :: q in rest <==> q == p || q in rest[1..];
    }
  }

  /// The tracking that waits for `p` is in the state in which its call left it.
  ghost predicate Waits(records: Records, p: Pending, calls: seq<InFlight>) {
    && Matches(records, p) && CallOkFor(calls, p) && records[p.root].fenceOpsInFlight == 1
    && (p.op == PendingLoad ==> calls[p.ticket].op.OpAdvance? && records[p.root].state == Loading)
    && (p.op == PendingPark ==> calls[p.ticket].op.OpPark? && records[p.root].state == Parking)
  }

  lemma {:induction false} PolledDecides(records: Records, rest: seq<Pending>, i: nat, calls: seq<InFlight>)
    requires AllRedeemable(rest, FuturesOf(calls)) && i < |rest| && Waits(records, rest[i], calls)
    requires forall j :: 0 <= j < |rest| && j != i && rest[j].root == rest[i].root ==>
               rest[j].incarnation != rest[i].incarnation
    ensures Decided(records, Polled(records, rest, FuturesOf(calls)).0, rest[i], calls)
    decreases |rest|
  {
    var p, futures := rest[0], FuturesOf(calls);
    var later := if futures[p.ticket].None? then records else ApplyReply(records, p, futures[p.ticket].value.result);
    assert forall j :: 0 <= j < |rest| - 1 ==> rest[1..][j] == rest[j + 1];
    if i == 0 {
      PolledLeaves(later, rest[1..], futures, p.root);
    } else {
      PolledDecides(later, rest[1..], i - 1, calls);
    }
  }

  /// A poll decides every tracking that waits for an answer by its own call, leaves the others alone, tracks nothing
  /// new, and keeps waiting exactly for the calls without an answer.
  lemma PollDecides(s: System, x: TableId)
    requires SystemInv(s) && x in s.tables
    ensures Enabled(s, Poll(x)) && x in Do(s, Poll(x)).tables
    ensures var t := Do(s, Poll(x)); var (was, now) := (s.tables[x], t.tables[x]);
      && t == s.(tables := s.tables[x := now]) && now == was.(records := now.records, pending := now.pending)
      && now.records.Keys <= was.records.Keys
      && (forall k :: k in was.records && was.records[k].state == Held ==>
            k in now.records && now.records[k] == was.records[k])
      && (forall p :: p in was.pending && Matches(was.records, p) ==>
            p.ticket < |s.calls| && Decided(was.records, now.records, p, s.calls))
      && (forall p :: p in now.pending <==> p in was.pending && p.ticket < |s.calls| && !Answered(p, s.calls))
  {
    PollIsEnabled(s, x);
    var was := s.tables[x];
    var now := Do(s, Poll(x)).tables[x];
    forall p | p in was.pending && Matches(was.records, p)
      ensures p.ticket < |s.calls| && Decided(was.records, now.records, p, s.calls)
    {
      var i :| 0 <= i < |was.pending| && was.pending[i] == p;
      PendingWaits(s, x, i);
      PolledDecides(was.records, was.pending, i, s.calls);
    }
    PolledKeeps(was.records, was.pending, FuturesOf(s.calls));
    forall p | p in was.pending ensures p.ticket < |s.calls| { OwnCallsAreOk(s, x, p); }
    forall k | k in was.records && was.records[k].state == Held
      ensures k in now.records && now.records[k] == was.records[k]
    {
      HeldIsLeft(s, x, k);
    }
    forall k | k in now.records ensures k in was.records {
      PolledAddsNothing(was.records, was.pending, FuturesOf(s.calls), k);
    }
  }

  lemma {:induction false} PolledAddsNothing(records: Records, rest: seq<Pending>, futures: seq<Option<FenceReply>>,
                                             k: AgId)
    requires AllRedeemable(rest, futures) && k in Polled(records, rest, futures).0
    ensures k in records
    decreases |rest|
  {
    if rest != [] {
      var p := rest[0];
      PolledAddsNothing(if futures[p.ticket].None? then records
                        else ApplyReply(records, p, futures[p.ticket].value.result), rest[1..], futures, k);
    }
  }

  lemma PendingWaits(s: System, x: TableId, i: nat)
    requires SystemInv(s) && x in s.tables && i < |s.tables[x].pending|
    requires Matches(s.tables[x].records, s.tables[x].pending[i])
    ensures Waits(s.tables[x].records, s.tables[x].pending[i], s.calls)
    ensures var t := s.tables[x];
      forall j :: 0 <= j < |t.pending| && j != i && t.pending[j].root == t.pending[i].root ==>
        t.pending[j].incarnation != t.pending[i].incarnation
  {
    var t := s.tables[x];
    var p := t.pending[i];
    assert TableOk(x, t, s.calls) && PendingOk(x, t.owner.cell, t.records, p, s.calls);
    assert RecordOk(x, t.owner.cell, t.records, t.pending, p.root, s.calls);
    OwnCallsAreOk(s, x, p);
    forall j | 0 <= j < |t.pending| && j != i && t.pending[j].root == p.root
      ensures t.pending[j].incarnation != p.incarnation
    {
      assert Matches(t.records, t.pending[j]) <==> t.pending[j].incarnation == t.records[p.root].incarnation;
      var first, second := if i < j then i else j, if i < j then j else i;
      assert Matches(t.records, t.pending[first]) ==>
          t.pending[first].root != t.pending[second].root
          || t.pending[first].incarnation != t.pending[second].incarnation;
    }
  }

  lemma HeldIsLeft(s: System, x: TableId, k: AgId)
    requires SystemInv(s) && x in s.tables && k in s.tables[x].records && s.tables[x].records[k].state == Held
    requires AllRedeemable(s.tables[x].pending, FuturesOf(s.calls))
    ensures var t := s.tables[x]; var now := Polled(t.records, t.pending, FuturesOf(s.calls)).0;
      k in now && now[k] == t.records[k]
  {
    var t := s.tables[x];
    assert TableOk(x, t, s.calls);
    forall p | p in t.pending && p.root == k ensures p.incarnation != t.records[k].incarnation {
      var i :| 0 <= i < |t.pending| && t.pending[i] == p;
      assert PendingOk(x, t.owner.cell, t.records, t.pending[i], s.calls);
    }
    PolledLeaves(t.records, t.pending, FuturesOf(s.calls), k);
  }

  // -- A tree that was taken -----------------------------------------------------------------

  lemma {:induction false} RunNotifies(trace: seq<System>, steps: seq<Step>, i: nat)
    requires IsRun(trace, steps) && i < |trace|
    ensures Notified(trace[i].fence)
  {
    if i > 0 {
      RunNotifies(trace, steps, i - 1);
      RunKeepsInv(trace, steps, i - 1);
      StepNotifies(trace[i - 1], steps[i - 1]);
    }
  }

  lemma StepNotifies(s: System, step: Step)
    requires SystemInv(s) && Enabled(s, step) && Notified(s.fence)
    ensures Notified(Do(s, step).fence)
  {
    hide Apply, Inv;
    if step.Execute? { ApplyNotifies(s.fence, s.calls[step.ticket].op); }
  }

  /// When another cell's load, takeover or recovery takes the tree that a table holds at the fence's epoch, the table's
  /// cell is told.
  lemma HolderIsTold(trace: seq<System>, steps: seq<Step>, i: nat, x: TableId, root: AgId)
    requires IsRun(trace, steps) && i < |steps| && steps[i].Execute?
    requires root in trace[i].fence.rows && Holds(trace[i], x, root, trace[i].fence.rows[root].epoch)
    requires trace[i].fence.rows[root].root == root
    requires var op := trace[i].calls[steps[i].ticket].op;
      (op.OpAdvance? && op.root == root && (op.cause == Load || op.cause == Takeover)) || op.OpAdvanceOwnedBy?
    requires root in trace[i + 1].fence.rows
             && trace[i + 1].fence.rows[root].owner.cell != trace[i].tables[x].owner.cell
    ensures ReleasedNotice(trace[i].tables[x].owner.cell, root, trace[i].fence.rows[root].epoch + 1)
            in trace[i + 1].fence.released
    ensures trace[i + 1].fence.rows[root].epoch == trace[i].fence.rows[root].epoch + 1
  {
    var s, op := trace[i].fence, trace[i].calls[steps[i].ticket].op;
    HolderIsFenced(trace, steps, i, x, root, s.rows[root].epoch);
    RunKeepsInv(trace, steps, i);
    RunNotifies(trace, steps, i);
    assert LineOk(s.rows, root);
    ExecutedTaking(s, op, steps[i].down, root);
  }

  lemma ExecutedTaking(s: FenceState, op: FenceOp, down: bool, root: AgId)
    requires Inv(s) && Notified(s) && root in s.rows && s.rows[root].root == root && s.rows[root].owner.cell != 0
    requires (op.OpAdvance? && op.root == root && (op.cause == Load || op.cause == Takeover)) || op.OpAdvanceOwnedBy?
    requires root in Attempt(s, op, down).0.rows
             && Attempt(s, op, down).0.rows[root].owner.cell != s.rows[root].owner.cell
    ensures ReleasedNotice(s.rows[root].owner.cell, root, s.rows[root].epoch + 1) in Attempt(s, op, down).0.released
    ensures Attempt(s, op, down).0.rows[root].epoch == s.rows[root].epoch + 1
  {
    assert !down && Attempt(s, op, down) == Apply(s, op);
    if Apply(s, op).1.Status() != Ok { FailureChangesNothing(s, op); }
    MovedByOwner(s, op, root);
    TakenIsNotified(s, op, root);
  }

  lemma MovedByOwner(s: FenceState, op: FenceOp, root: AgId)
    requires Inv(s) && root in s.rows && s.rows[root].root == root && Apply(s, op).1.Status() == Ok
    requires (op.OpAdvance? && op.root == root) || op.OpAdvanceOwnedBy?
    requires root in Apply(s, op).0.rows && Apply(s, op).0.rows[root] != s.rows[root]
    ensures Apply(s, op).0.rows[root].epoch == s.rows[root].epoch + 1
    ensures Apply(s, op).0.rows[root].owner == op.owner
  {
    if op.OpAdvance? {
      AdvanceMoves(s, root, op.from, op.next, op.owner, op.cause);
      AdvanceIffCurrent(s, root, op.from, op.next, op.owner, op.cause);
    } else {
      var list := OwnedByMoves(s, op.region, op.gen, op.owner);
      MoveEachRows(s, list, op.owner, Recovery);
    }
  }

  /// The fence has passed `epoch` and the table tracks the tree only for later epochs: what it still waits for did not
  /// win an epoch up to it.
  ghost predicate Past(s: System, x: TableId, root: AgId, epoch: Epoch) {
    && root in s.fence.rows && epoch < s.fence.rows[root].epoch && x in s.tables
    && var t := s.tables[x];
      root in t.records ==>
        && (t.records[root].state != Loading ==> epoch < t.records[root].epoch)
        && (t.records[root].state == Loading ==>
              forall p :: p in t.pending && p.root == root && Matches(t.records, p) ==>
                p.ticket < |s.calls| && (Won(s.calls[p.ticket]) ==> epoch < s.calls[p.ticket].op.next))
  }

  lemma NoticeMakesPast(s: System, x: TableId, n: ReleasedNotice, epoch: Epoch)
    requires SystemInv(s) && Enabled(s, DeliverReleased(x, n)) && n.epoch == epoch + 1
    requires n.ag in s.fence.rows && epoch < s.fence.rows[n.ag].epoch
    ensures Past(Do(s, DeliverReleased(x, n)), x, n.ag, epoch)
  {
    var u := Do(s, DeliverReleased(x, n));
    NoticeDrops(s, x, n);
    var t := s.tables[x];
    forall p | p in u.tables[x].pending && p.root == n.ag && Matches(u.tables[x].records, p)
        && u.tables[x].records[n.ag].state == Loading
      ensures p.ticket < |s.calls| && (Won(s.calls[p.ticket]) ==> epoch < s.calls[p.ticket].op.next)
    {
      var i :| 0 <= i < |t.pending| && t.pending[i] == p;
      assert TableOk(x, t, s.calls) && PendingOk(x, t.owner.cell, t.records, t.pending[i], s.calls);
    }
  }

  lemma PollStaysPast(s: System, x: TableId, root: AgId, epoch: Epoch)
    requires SystemInv(s) && Past(s, x, root, epoch)
    ensures Enabled(s, Poll(x)) && Past(Do(s, Poll(x)), x, root, epoch)
  {
    hide SystemInv, Do, Enabled, Matches, Past;
    PastIsTracked(s, x, root, epoch);
    PollDecides(s, x);
    var was, now := s.tables[x], Do(s, Poll(x)).tables[x];
    if root in now.records && was.records[root].state != Held {
      var p := WaitsFor(s, x, root);
      assert Decided(was.records, now.records, p, s.calls);
      DecidedStaysPast(s, Do(s, Poll(x)), x, root, epoch, p);
    } else {
      HeldStaysPast(s, Do(s, Poll(x)), x, root, epoch);
    }
  }

  lemma PastIsTracked(s: System, x: TableId, root: AgId, epoch: Epoch)
    requires Past(s, x, root, epoch)
    ensures x in s.tables
  {
  }

  /// The pending call that a tracking waits for.
  lemma WaitsFor(s: System, x: TableId, root: AgId) returns (p: Pending)
    requires SystemInv(s) && x in s.tables && root in s.tables[x].records && s.tables[x].records[root].state != Held
    ensures p in s.tables[x].pending && p.root == root && Matches(s.tables[x].records, p)
  {
    var t := s.tables[x];
    assert TableOk(x, t, s.calls) && RecordOk(x, t.owner.cell, t.records, t.pending, root, s.calls);
    p :| p in t.pending && p.root == root && p.incarnation == t.records[root].incarnation;
  }

  lemma DecidedStaysPast(s: System, u: System, x: TableId, root: AgId, epoch: Epoch, p: Pending)
    requires Past(s, x, root, epoch) && u.fence == s.fence && u.calls == s.calls && x in u.tables
    requires root in s.tables[x].records && p in s.tables[x].pending && p.root == root
    requires Matches(s.tables[x].records, p) && p.ticket < |s.calls|
    requires Decided(s.tables[x].records, u.tables[x].records, p, s.calls)
    requires forall q :: q in u.tables[x].pending ==> q in s.tables[x].pending
    ensures Past(u, x, root, epoch)
  {
  }

  lemma HeldStaysPast(s: System, u: System, x: TableId, root: AgId, epoch: Epoch)
    requires Past(s, x, root, epoch) && u.fence == s.fence && x in u.tables
    requires root in u.tables[x].records ==>
               root in s.tables[x].records && s.tables[x].records[root].state == Held
               && u.tables[x].records[root] == s.tables[x].records[root]
    ensures Past(u, x, root, epoch)
  {
  }

  lemma LoadStaysPast(s: System, x: TableId, root: AgId, epoch: Epoch, loaded: AgId, from: Epoch, takeover: bool)
    requires SystemInv(s) && Past(s, x, root, epoch) && Enabled(s, LoadTree(x, loaded, from, takeover))
    ensures Past(Do(s, LoadTree(x, loaded, from, takeover)), x, root, epoch)
  {
    var u := Do(s, LoadTree(x, loaded, from, takeover));
    var t, now := s.tables[x], u.tables[x];
    assert TableOk(x, t, s.calls);
    forall p | p in now.pending && p.root == root && Matches(now.records, p) && now.records[root].state == Loading
      ensures p.ticket < |u.calls| && (Won(u.calls[p.ticket]) ==> epoch < u.calls[p.ticket].op.next)
    {
      if p in t.pending {
        var i :| 0 <= i < |t.pending| && t.pending[i] == p;
        assert PendingOk(x, t.owner.cell, t.records, t.pending[i], s.calls);
      }
    }
  }

  lemma ParkStaysPast(s: System, x: TableId, root: AgId, epoch: Epoch, parked: AgId, seqNo: StreamSeq)
    requires SystemInv(s) && Past(s, x, root, epoch) && Enabled(s, ParkTreeOf(x, parked, seqNo))
    ensures Past(Do(s, ParkTreeOf(x, parked, seqNo)), x, root, epoch)
  {
  }

  lemma PendingForRoot(s: System, x: TableId, p: Pending)
    requires SystemInv(s) && x in s.tables && p in s.tables[x].pending
    requires Matches(s.tables[x].records, p) && s.tables[x].records[p.root].state == Loading
    ensures p.ticket < |s.calls| && s.calls[p.ticket].op.OpAdvance? && s.calls[p.ticket].op.root == p.root
  {
    var t := s.tables[x];
    var i :| 0 <= i < |t.pending| && t.pending[i] == p;
    assert TableOk(x, t, s.calls) && PendingOk(x, t.owner.cell, t.records, t.pending[i], s.calls);
  }

  lemma ExecuteStaysPast(s: System, x: TableId, root: AgId, epoch: Epoch, ticket: nat, down: bool)
    requires SystemInv(s) && Past(s, x, root, epoch) && Enabled(s, Execute(ticket, down))
    ensures Past(Do(s, Execute(ticket, down)), x, root, epoch)
  {
    hide Attempt, Inv, TableOk, CallOk, WonOnce;
    ApplyStep(s.fence, s.calls[ticket].op, down);
    var t := s.tables[x];
    forall p | p in t.pending && p.root == root && Matches(t.records, p) && t.records[root].state == Loading
      ensures p.ticket < |s.calls| && s.calls[p.ticket].op.OpAdvance? && s.calls[p.ticket].op.root == root
    {
      PendingForRoot(s, x, p);
    }
  }

  lemma StepStaysPast(s: System, step: Step, x: TableId, root: AgId, epoch: Epoch)
    requires SystemInv(s) && Enabled(s, step) && Past(s, x, root, epoch)
    ensures Past(Do(s, step), x, root, epoch)
  {
    hide TableOk, CallOk, WonOnce, Inv, Attempt, Polled, PendingOk;
    match step
    case Execute(ticket, down) => ExecuteStaysPast(s, x, root, epoch, ticket, down);
    case LoadTree(y, loaded, from, takeover) =>
      if y == x { LoadStaysPast(s, x, root, epoch, loaded, from, takeover); }
    case ParkTreeOf(y, parked, seqNo) =>
      if y == x { ParkStaysPast(s, x, root, epoch, parked, seqNo); }
    case Poll(y) =>
      if y == x { PollStaysPast(s, x, root, epoch); }
    case _ =>
  }

  lemma RunStep(trace: seq<System>, steps: seq<Step>, i: nat)
    requires IsRun(trace, steps) && i < |steps|
    ensures i + 1 < |trace| && SystemInv(trace[i]) && Enabled(trace[i], steps[i])
    ensures trace[i + 1] == Do(trace[i], steps[i])
  {
    RunKeepsInv(trace, steps, i);
  }

  lemma RunLength(trace: seq<System>, steps: seq<Step>)
    requires IsRun(trace, steps)
    ensures |trace| == |steps| + 1
  {
  }

  lemma {:induction false} RunStaysPast(trace: seq<System>, steps: seq<Step>, i: nat, j: nat, x: TableId, root: AgId,
                                        epoch: Epoch)
    requires IsRun(trace, steps) && i <= j < |trace| && Past(trace[i], x, root, epoch)
    ensures Past(trace[j], x, root, epoch)
    decreases j - i
  {
    if i < j {
      hide SystemInv, Past, Do, Enabled;
      RunLength(trace, steps);
      RunStep(trace, steps, j - 1);
      hide IsRun;
      RunStaysPast(trace, steps, i, j - 1, x, root, epoch);
      StepStaysPast(trace[j - 1], steps[j - 1], x, root, epoch);
    }
  }

  /// Once a table heard that its tree was taken, it never again acts on the tree at the epoch it lost or an earlier
  /// one, whatever it loads and whatever late replies arrive.
  lemma TakenIsNeverHeldAgain(trace: seq<System>, steps: seq<Step>, i: nat, j: nat, x: TableId, n: ReleasedNotice,
                              epoch: Epoch)
    requires IsRun(trace, steps) && i < |steps| && i < j < |trace| && steps[i] == DeliverReleased(x, n)
    requires epoch < n.epoch
    ensures !Holds(trace[j], x, n.ag, epoch)
  {
    RunKeepsInv(trace, steps, i);
    var s := trace[i];
    var k :| 0 <= k < |s.fence.events| && s.fence.events[k].ag == n.ag && s.fence.events[k].epoch == n.epoch;
    assert EventOk(s.fence.rows, s.fence.events[k]);
    NoticeMakesPast(s, x, n, n.epoch - 1);
    RunStaysPast(trace, steps, i + 1, j, x, n.ag, n.epoch - 1);
  }
}
