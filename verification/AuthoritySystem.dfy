/// One fence and any number of tables, with calls applied and answered in any order after any
/// delay, release notices delivered late, repeatedly or never, and tables dropping and loading
/// trees again (engine/authority/src/ag_table.cpp:20-96, memory_fence.cpp:110-153, 237-424).
///
/// The theorems say what no schedule can break: two tables never hold the same tree at the same
/// epoch, and a table that holds the fence's current epoch is the row's owner.
module AuthoritySystem {
  import opened AgTables
  import opened AuthorityTypes
  import opened FenceForest
  import opened FenceInvariant
  import opened FenceSpec
  import opened MemoryFence
  import opened Options

  type TableId = nat

  /// A call on its way: `issuer` is the table waiting for it, `result` is set once the fence
  /// applied it, and `ready` once the reply has arrived.
  datatype InFlight = InFlight(issuer: Option<TableId>, op: FenceOp, result: Option<FenceReply>, ready: bool)

  datatype System = System(fence: FenceState, calls: seq<InFlight>, tables: map<TableId, Table>)

  datatype Step =
    | CreateRow(ag: AgId, epoch: Epoch)
    | Start(table: TableId, owner: Owner)
    | Submit(op: FenceOp)
    | Execute(ticket: nat, down: bool)
    | Answer(ticket: nat)
    | LoadTree(table: TableId, root: AgId, epoch: Epoch, takeover: bool)
    | ParkTreeOf(table: TableId, root: AgId, seqNo: StreamSeq)
    | Poll(table: TableId)
    | DeliverReleased(table: TableId, notice: ReleasedNotice)
    | DropAll(table: TableId)
    | Renew(table: TableId, region: RegionId, gen: LeaseGen)

  function FuturesOf(calls: seq<InFlight>): (f: seq<Option<FenceReply>>)
    ensures |f| == |calls|
    ensures forall i :: 0 <= i < |calls| ==> f[i] == if calls[i].ready then calls[i].result else None
  {
    seq(|calls|, i requires 0 <= i < |calls| => if calls[i].ready then calls[i].result else None)
  }

  ghost predicate Enabled(s: System, step: Step) {
    match step
    case CreateRow(_, _) => true
    case Start(x, owner) => x !in s.tables
    case Submit(_) => true
    case Execute(i, _) => i < |s.calls| && s.calls[i].result == None
    case Answer(i) => i < |s.calls| && s.calls[i].result.Some?
    case LoadTree(x, root, _, _) => x in s.tables && CanLoad(s.tables[x], root)
    case ParkTreeOf(x, root, _) => x in s.tables && CanPark(s.tables[x], root)
    case Poll(x) => x in s.tables && AllRedeemable(s.tables[x].pending, FuturesOf(s.calls))
    case DeliverReleased(x, n) => x in s.tables && n in s.fence.released && n.cell == s.tables[x].owner.cell
    case DropAll(x) => x in s.tables
    case Renew(x, _, _) => x in s.tables
  }

  ghost function Do(s: System, step: Step): System
    requires Enabled(s, step)
  {
    match step
    case CreateRow(ag, epoch) => s.(fence := Create(s.fence, ag, epoch).0)
    case Start(x, owner) => s.(tables := s.tables[x := Table(owner, 0, map[], [])])
    case Submit(op) => s.(calls := s.calls + [InFlight(None, op, None, false)])
    case Execute(i, down) =>
      var (t, reply) := Attempt(s.fence, s.calls[i].op, down);
      s.(fence := t, calls := s.calls[i := s.calls[i].(result := Some(reply))])
    case Answer(i) => s.(calls := s.calls[i := s.calls[i].(ready := true)])
    case LoadTree(x, root, epoch, takeover) =>
      var op := LoadOp(s.tables[x], root, epoch, takeover);
      s.(calls := s.calls + [InFlight(Some(x), op, None, false)],
         tables := s.tables[x := Loaded(s.tables[x], root, epoch, |s.calls|)])
    case ParkTreeOf(x, root, seqNo) =>
      var op := ParkOp(s.tables[x], root, seqNo);
      s.(calls := s.calls + [InFlight(Some(x), op, None, false)],
         tables := s.tables[x := ParkedTable(s.tables[x], root, |s.calls|)])
    case Poll(x) =>
      var t := s.tables[x];
      var (records, pending) := Polled(t.records, t.pending, FuturesOf(s.calls));
      s.(tables := s.tables[x := t.(records := records, pending := pending)])
    case DeliverReleased(x, n) => s.(tables := s.tables[x := Released(s.tables[x], n.ag, n.epoch)])
    case DropAll(x) => s.(tables := s.tables[x := Dropped(s.tables[x])])
    case Renew(x, region, gen) =>
      var t := s.tables[x];
      s.(tables := s.tables[x := t.(owner := Owner(t.owner.cell, region, gen))])
  }

  // -- The invariant -------------------------------------------------------------------------

  /// The call advanced its tree: it was applied and not refused.
  predicate Won(c: InFlight) {
    c.op.OpAdvance? && c.result.Some? && c.result.value.Status() == Ok
  }

  /// A winning call's epoch never exceeds its row's; at that epoch the row is its owner's.
  ghost predicate WonOk(fence: FenceState, c: InFlight)
    requires Won(c)
  {
    var op := c.op;
    && op.root in fence.rows && op.next <= fence.rows[op.root].epoch
    && (op.next == fence.rows[op.root].epoch ==> fence.rows[op.root].owner == op.owner)
    && op.owner.IsValid() && c.result.value.Single? && c.result.value.result.epoch == op.next
  }

  ghost predicate CallOk(fence: FenceState, c: InFlight) {
    && (c.issuer.Some? ==> c.op.OpAdvance? || c.op.OpPark?)
    && (c.result.Some? && (c.op.OpAdvance? || c.op.OpPark?) ==> c.result.value.Single?)
    && (Won(c) ==> WonOk(fence, c))
  }

  /// No epoch of a tree is won twice.
  ghost predicate WonOnce(calls: seq<InFlight>) {
    forall i, j :: 0 <= i < j < |calls| && Won(calls[i]) && Won(calls[j]) && calls[i].op.root == calls[j].op.root ==>
      calls[i].op.next != calls[j].op.next
  }

  predicate Matches(records: Records, p: Pending) {
    p.root in records && records[p.root].incarnation == p.incarnation
  }

  /// A pending reply is that of the table's own call for the tree; if it is for the current
  /// tracking, the record is in the state the call left it in.
  ghost predicate PendingOk(x: TableId, cell: CellId, records: Records, p: Pending, calls: seq<InFlight>) {
    && p.ticket < |calls| && calls[p.ticket].issuer == Some(x)
    && (p.op == PendingLoad ==>
          var op := calls[p.ticket].op;
          op.OpAdvance? && op.root == p.root && op.next == op.from + 1 && op.owner.cell == cell
          && (Matches(records, p) ==> records[p.root].state == Loading && records[p.root].epoch == op.from))
    && (p.op == PendingPark ==>
          calls[p.ticket].op.OpPark? && calls[p.ticket].op.root == p.root
          && (Matches(records, p) ==> records[p.root].state == Parking))
  }

  /// A record is waiting for a call exactly while one is in flight for its tracking; a held record
  /// was won by a call of this table at its epoch.
  ghost predicate RecordOk(x: TableId, cell: CellId, records: Records, pending: seq<Pending>, root: AgId,
                           calls: seq<InFlight>)
    requires root in records
  {
    var rec := records[root];
    && (rec.state == Held ==>
          rec.fenceOpsInFlight == 0
          && exists i :: 0 <= i < |calls| && calls[i].issuer == Some(x) && Won(calls[i])
                         && calls[i].op.root == root && calls[i].op.next == rec.epoch && calls[i].op.owner.cell == cell)
    && (rec.state != Held ==>
          rec.fenceOpsInFlight == 1
          && exists p :: p in pending && p.root == root && p.incarnation == rec.incarnation)
  }

  /// No two pending replies are for the current tracking of the same tree, and every incarnation
  /// was handed out.
  ghost predicate TrackingOk(t: Table) {
    && (forall i :: 0 <= i < |t.pending| ==> t.pending[i].incarnation <= t.nextIncarnation)
    && (forall k :: k in t.records ==> t.records[k].incarnation <= t.nextIncarnation)
    && (forall i, j :: 0 <= i < j < |t.pending| && Matches(t.records, t.pending[i]) ==>
          t.pending[i].root != t.pending[j].root || t.pending[i].incarnation != t.pending[j].incarnation)
  }

  ghost predicate TableOk(x: TableId, t: Table, calls: seq<InFlight>) {
    && TrackingOk(t)
    && (forall i :: 0 <= i < |t.pending| ==> PendingOk(x, t.owner.cell, t.records, t.pending[i], calls))
    && (forall k {:trigger RecordOk(x, t.owner.cell, t.records, t.pending, k, calls)} :: k in t.records ==>
          RecordOk(x, t.owner.cell, t.records, t.pending, k, calls))
  }

  ghost predicate SystemInv(s: System) {
    && Inv(s.fence)
    && (forall i :: 0 <= i < |s.calls| ==> CallOk(s.fence, s.calls[i]))
    && WonOnce(s.calls)
    && (forall x :: x in s.tables ==> TableOk(x, s.tables[x], s.calls))
  }

  predicate Initial(s: System) {
    && s.fence.rows == map[] && s.fence.events == [] && s.fence.released == []
    && s.calls == [] && s.tables == map[]
  }

  // -- Preservation --------------------------------------------------------------------------

  /// A row step keeps what winning calls know about their rows.
  lemma RowsStepKeepsCalls(s: FenceState, t: FenceState, c: InFlight)
    requires CallOk(s, c)
    requires s.rows.Keys <= t.rows.Keys
    requires forall k :: k in s.rows ==> s.rows[k].epoch < t.rows[k].epoch || t.rows[k] == s.rows[k]
    ensures CallOk(t, c)
  {
  }

  /// What applying one call does: rows stay or gain epoch, and a winning call takes a fresh epoch.
  lemma ApplyStep(s: FenceState, op: FenceOp, down: bool)
    requires Inv(s)
    ensures var (t, reply) := Attempt(s, op, down);
      && Inv(t) && t.rows.Keys == s.rows.Keys
      && (forall k :: k in s.rows ==> s.rows[k].epoch < t.rows[k].epoch || t.rows[k] == s.rows[k])
      && (op.OpAdvance? || op.OpPark? ==> reply.Single?)
      && (op.OpAdvance? && reply.Status() == Ok ==>
            op.root in s.rows && s.rows[op.root].epoch < op.next == t.rows[op.root].epoch
            && t.rows[op.root].owner == op.owner && op.owner.IsValid()
            && reply.result.status == Ok && reply.result.epoch == op.next)
  {
    var (t, reply) := Attempt(s, op, down);
    AttemptKeepsInv(s, op, down);
    if !down && Apply(s, op).1.Status() == Ok {
      OkRaisesExactlySelected(s, op);
    } else if !down {
      FailureChangesNothing(s, op);
    }
  }

  lemma ExecuteKeepsCalls(s: System, i: nat, down: bool)
    requires SystemInv(s) && Enabled(s, Execute(i, down))
    ensures var t := Do(s, Execute(i, down));
      && Inv(t.fence) && WonOnce(t.calls) && forall j :: 0 <= j < |t.calls| ==> CallOk(t.fence, t.calls[j])
  {
    var t := Do(s, Execute(i, down));
    ApplyStep(s.fence, s.calls[i].op, down);
    forall j | 0 <= j < |t.calls| ensures CallOk(t.fence, t.calls[j]) {
      assert CallOk(s.fence, s.calls[j]);
      RowsStepKeepsCalls(s.fence, t.fence, s.calls[j]);
    }
    forall j, k | 0 <= j < k < |t.calls| && Won(t.calls[j]) && Won(t.calls[k])
      && t.calls[j].op.root == t.calls[k].op.root
      ensures t.calls[j].op.next != t.calls[k].op.next
    {
      assert CallOk(s.fence, s.calls[j]) && CallOk(s.fence, s.calls[k]);
    }
  }

  /// Tables rely on their calls only through what executing and answering keep.
  ghost predicate Extends(calls: seq<InFlight>, more: seq<InFlight>) {
    && |calls| <= |more|
    && forall i :: 0 <= i < |calls| ==>
         more[i].issuer == calls[i].issuer && more[i].op == calls[i].op
           && (calls[i].result.Some? ==> more[i].result == calls[i].result)
  }

  lemma ExtendingKeepsTable(x: TableId, t: Table, calls: seq<InFlight>, more: seq<InFlight>)
    requires TableOk(x, t, calls) && Extends(calls, more)
    ensures TableOk(x, t, more)
  {
    forall i | 0 <= i < |t.pending| ensures PendingOk(x, t.owner.cell, t.records, t.pending[i], more) {
      assert PendingOk(x, t.owner.cell, t.records, t.pending[i], calls);
    }
    forall k | k in t.records ensures RecordOk(x, t.owner.cell, t.records, t.pending, k, more) {
      assert RecordOk(x, t.owner.cell, t.records, t.pending, k, calls);
      if t.records[k].state == Held {
        var i :| 0 <= i < |calls| && calls[i].issuer == Some(x) && Won(calls[i]) && calls[i].op.root == k
                 && calls[i].op.next == t.records[k].epoch && calls[i].op.owner.cell == t.owner.cell;
        assert Won(more[i]);
      }
    }
  }

  lemma LoadKeepsTable(x: TableId, t: Table, root: AgId, epoch: Epoch, takeover: bool, calls: seq<InFlight>)
    requires TableOk(x, t, calls) && CanLoad(t, root)
    ensures var more := calls + [InFlight(Some(x), LoadOp(t, root, epoch, takeover), None, false)];
      TableOk(x, Loaded(t, root, epoch, |calls|), more)
  {
    var more := calls + [InFlight(Some(x), LoadOp(t, root, epoch, takeover), None, false)];
    var u := Loaded(t, root, epoch, |calls|);
    ExtendingKeepsTable(x, t, calls, more);
    forall i | 0 <= i < |u.pending| ensures PendingOk(x, u.owner.cell, u.records, u.pending[i], more) {
      if i < |t.pending| { assert PendingOk(x, t.owner.cell, t.records, t.pending[i], more); }
    }
    forall k | k in u.records ensures RecordOk(x, u.owner.cell, u.records, u.pending, k, more) {
      if k == root {
        assert u.pending[|t.pending|] in u.pending;
      } else {
        assert RecordOk(x, t.owner.cell, t.records, t.pending, k, more);
        if t.records[k].state != Held {
          var p :| p in t.pending && p.root == k && p.incarnation == t.records[k].incarnation;
          assert p in u.pending;
        }
      }
    }
  }

  lemma ParkKeepsTable(x: TableId, t: Table, root: AgId, seqNo: StreamSeq, calls: seq<InFlight>)
    requires TableOk(x, t, calls) && CanPark(t, root)
    ensures var more := calls + [InFlight(Some(x), ParkOp(t, root, seqNo), None, false)];
      TableOk(x, ParkedTable(t, root, |calls|), more)
  {
    var more := calls + [InFlight(Some(x), ParkOp(t, root, seqNo), None, false)];
    var u := ParkedTable(t, root, |calls|);
    ExtendingKeepsTable(x, t, calls, more);
    forall i | 0 <= i < |u.pending| ensures PendingOk(x, u.owner.cell, u.records, u.pending[i], more) {
      if i < |t.pending| { assert PendingOk(x, t.owner.cell, t.records, t.pending[i], more); }
    }
    forall k | k in u.records ensures RecordOk(x, u.owner.cell, u.records, u.pending, k, more) {
      assert RecordOk(x, t.owner.cell, t.records, t.pending, k, more);
      if k == root {
        assert u.pending[|t.pending|] in u.pending;
      } else if t.records[k].state != Held {
        var p :| p in t.pending && p.root == k && p.incarnation == t.records[k].incarnation;
        assert p in u.pending;
      }
    }
    forall i, j | 0 <= i < j < |u.pending| && Matches(u.records, u.pending[i])
      ensures u.pending[i].root != u.pending[j].root || u.pending[i].incarnation != u.pending[j].incarnation
    {
      assert PendingOk(x, t.owner.cell, t.records, t.pending[i], more);
    }
  }

  /// Forgetting a tracking keeps the rest of the table.
  lemma ForgetKeepsTable(x: TableId, t: Table, root: AgId, calls: seq<InFlight>)
    requires TableOk(x, t, calls)
    ensures TableOk(x, t.(records := t.records - {root}), calls)
  {
    var u := t.(records := t.records - {root});
    forall i | 0 <= i < |u.pending| ensures PendingOk(x, u.owner.cell, u.records, u.pending[i], calls) {
      assert PendingOk(x, t.owner.cell, t.records, t.pending[i], calls);
    }
    forall k | k in u.records ensures RecordOk(x, u.owner.cell, u.records, u.pending, k, calls) {
      assert RecordOk(x, t.owner.cell, t.records, t.pending, k, calls);
    }
    forall i, j | 0 <= i < j < |u.pending| && Matches(u.records, u.pending[i])
      ensures u.pending[i].root != u.pending[j].root || u.pending[i].incarnation != u.pending[j].incarnation
    {
      assert Matches(t.records, t.pending[i]);
    }
  }

  /// Receiving one reply: the tracking it is for becomes held, or is forgotten.
  lemma ReceiveKeepsPending(x: TableId, t: Table, kept: seq<Pending>, p: Pending, rest: seq<Pending>,
                            calls: seq<InFlight>)
    requires TableOk(x, t, calls) && t.pending == kept + [p] + rest
    requires CallOkFor(calls, p) && calls[p.ticket].result.Some?
    ensures var u := t.(records := ApplyReply(t.records, p, calls[p.ticket].result.value.result),
                        pending := kept + rest);
            forall i :: 0 <= i < |u.pending| ==>
              PendingOk(x, u.owner.cell, u.records, u.pending[i], calls)
              && u.pending[i].incarnation <= u.nextIncarnation
              && (Matches(t.records, p) ==> u.pending[i].root != p.root || u.pending[i].incarnation != p.incarnation)
  {
    var r := calls[p.ticket].result.value.result;
    var u := t.(records := ApplyReply(t.records, p, r), pending := kept + rest);
    var n := |kept|;
    assert t.pending[n] == p && PendingOk(x, t.owner.cell, t.records, p, calls);
    forall i | 0 <= i < |u.pending|
      ensures PendingOk(x, u.owner.cell, u.records, u.pending[i], calls)
      ensures u.pending[i].incarnation <= u.nextIncarnation
      ensures Matches(t.records, p) ==> u.pending[i].root != p.root || u.pending[i].incarnation != p.incarnation
    {
      var j := if i < n then i else i + 1;
      assert u.pending[i] == t.pending[j];
      assert PendingOk(x, t.owner.cell, t.records, t.pending[j], calls);
    }
  }

  lemma ReceiveKeepsTable(x: TableId, t: Table, kept: seq<Pending>, p: Pending, rest: seq<Pending>,
                          calls: seq<InFlight>)
    requires TableOk(x, t, calls) && t.pending == kept + [p] + rest
    requires CallOkFor(calls, p) && calls[p.ticket].result.Some?
    ensures TableOk(x, t.(records := ApplyReply(t.records, p, calls[p.ticket].result.value.result),
                          pending := kept + rest), calls)
  {
    var r := calls[p.ticket].result.value.result;
    var u := t.(records := ApplyReply(t.records, p, r), pending := kept + rest);
    var n := |kept|;
    assert t.pending[n] == p && PendingOk(x, t.owner.cell, t.records, p, calls);
    ReceiveKeepsPending(x, t, kept, p, rest, calls);
    hide PendingOk;
    forall i, j | 0 <= i < j < |u.pending| && Matches(u.records, u.pending[i])
      ensures u.pending[i].root != u.pending[j].root || u.pending[i].incarnation != u.pending[j].incarnation
    {
      var a, b := if i < n then i else i + 1, if j < n then j else j + 1;
      assert u.pending[i] == t.pending[a] && u.pending[j] == t.pending[b] && Matches(t.records, t.pending[a]);
    }
    forall k | k in u.records ensures RecordOk(x, u.owner.cell, u.records, u.pending, k, calls) {
      assert RecordOk(x, t.owner.cell, t.records, t.pending, k, calls);
      if k == p.root && Matches(t.records, p) {
        assert Won(calls[p.ticket]);
      } else if t.records[k].state != Held {
        var q :| q in t.pending && q.root == k && q.incarnation == t.records[k].incarnation;
        assert q != p && q in u.pending;
      }
    }
  }

  /// The reply of a table's call is a single-tree reply, and a won one carries the call's epoch.
  ghost predicate CallOkFor(calls: seq<InFlight>, p: Pending) {
    && p.ticket < |calls|
    && var c := calls[p.ticket];
      (c.result.Some? ==> c.result.value.Single? && (Won(c) ==> c.result.value.result.epoch == c.op.next))
  }

  lemma {:induction false} PollKeepsTable(x: TableId, t: Table, kept: seq<Pending>, rest: seq<Pending>,
                                          calls: seq<InFlight>)
    requires TableOk(x, t, calls) && t.pending == kept + rest
    requires forall p :: p in rest ==> CallOkFor(calls, p)
    requires AllRedeemable(rest, FuturesOf(calls))
    ensures var (records, later) := Polled(t.records, rest, FuturesOf(calls));
      TableOk(x, t.(records := records, pending := kept + later), calls)
    decreases |rest|
  {
    hide TableOk;
    if rest == [] {
      assert t.(records := t.records, pending := kept + []) == t;
    } else {
      var p, tail := rest[0], rest[1..];
      assert p in rest && rest == [p] + tail && t.pending == kept + [p] + tail;
      assert forall q :: q in tail ==> q in rest;
      assert forall i :: 0 <= i < |tail| ==> tail[i] == rest[i + 1];
      if FuturesOf(calls)[p.ticket].None? {
        PollKeepsTable(x, t, kept + [p], tail, calls);
        var (records, later) := Polled(t.records, tail, FuturesOf(calls));
        assert kept + [p] + later == kept + ([p] + later);
      } else {
        ReceiveKeepsTable(x, t, kept, p, tail, calls);
        PollKeepsTable(x, t.(records := ApplyReply(t.records, p, calls[p.ticket].result.value.result),
                             pending := kept + tail),
                       kept, tail, calls);
      }
    }
  }

  lemma OwnCallsAreOk(s: System, x: TableId, p: Pending)
    requires SystemInv(s) && x in s.tables && p in s.tables[x].pending
    ensures CallOkFor(s.calls, p) && Redeemable(p, FuturesOf(s.calls))
  {
    var t := s.tables[x];
    assert TableOk(x, t, s.calls);
    var i :| 0 <= i < |t.pending| && t.pending[i] == p;
    assert PendingOk(x, t.owner.cell, t.records, t.pending[i], s.calls);
    assert CallOk(s.fence, s.calls[p.ticket]);
  }

  /// A table can always poll: each of its tickets names a single-tree call.
  lemma PollIsEnabled(s: System, x: TableId)
    requires SystemInv(s) && x in s.tables
    ensures Enabled(s, Poll(x))
  {
    forall i | 0 <= i < |s.tables[x].pending| ensures Redeemable(s.tables[x].pending[i], FuturesOf(s.calls)) {
      OwnCallsAreOk(s, x, s.tables[x].pending[i]);
    }
  }

  /// What a step does to the calls never takes back a ticket, an answer or a result.
  lemma StepExtendsCalls(s: System, step: Step)
    requires Enabled(s, step)
    ensures Extends(s.calls, Do(s, step).calls)
  {
  }

  lemma NewCallKeepsCalls(s: System, c: InFlight)
    requires SystemInv(s) && c.result == None && (c.issuer.Some? ==> c.op.OpAdvance? || c.op.OpPark?)
    ensures var calls := s.calls + [c];
      WonOnce(calls) && forall i :: 0 <= i < |calls| ==> CallOk(s.fence, calls[i])
  {
  }

  lemma AnswerKeepsCalls(s: System, ticket: nat)
    requires SystemInv(s) && Enabled(s, Answer(ticket))
    ensures var calls := Do(s, Answer(ticket)).calls;
      WonOnce(calls) && forall i :: 0 <= i < |calls| ==> CallOk(s.fence, calls[i])
  {
    var calls := Do(s, Answer(ticket)).calls;
    assert forall i :: 0 <= i < |calls| ==> CallOk(s.fence, s.calls[i]);
  }

  lemma StepKeepsCalls(s: System, step: Step)
    requires SystemInv(s) && Enabled(s, step)
    ensures var t := Do(s, step);
      && Inv(t.fence) && WonOnce(t.calls) && forall i :: 0 <= i < |t.calls| ==> CallOk(t.fence, t.calls[i])
  {
    var t := Do(s, step);
    match step
    case CreateRow(ag, epoch) =>
      CreateKeepsInv(s.fence, ag, epoch);
      forall i | 0 <= i < |t.calls| ensures CallOk(t.fence, t.calls[i]) {
        RowsStepKeepsCalls(s.fence, t.fence, s.calls[i]);
      }
    case Submit(op) => NewCallKeepsCalls(s, InFlight(None, op, None, false));
    case Execute(i, down) => ExecuteKeepsCalls(s, i, down);
    case Answer(i) => AnswerKeepsCalls(s, i);
    case LoadTree(x, root, epoch, takeover) =>
      NewCallKeepsCalls(s, InFlight(Some(x), LoadOp(s.tables[x], root, epoch, takeover), None, false));
    case ParkTreeOf(x, root, seqNo) =>
      NewCallKeepsCalls(s, InFlight(Some(x), ParkOp(s.tables[x], root, seqNo), None, false));
    case _ =>
  }

  lemma StepKeepsTable(s: System, step: Step, x: TableId)
    requires SystemInv(s) && Enabled(s, step) && x in Do(s, step).tables
    ensures TableOk(x, Do(s, step).tables[x], Do(s, step).calls)
  {
    var t := Do(s, step);
    StepExtendsCalls(s, step);
    if x in s.tables {
      hide TableOk, PendingOk, RecordOk, TrackingOk, CallOk, WonOnce, Inv, Attempt, Create, Polled, Released;
      var was := s.tables[x];
      assert TableOk(x, was, s.calls);
      ExtendingKeepsTable(x, was, s.calls, t.calls);
      match step
      case LoadTree(y, root, epoch, takeover) =>
        if y == x { LoadKeepsTable(x, was, root, epoch, takeover, s.calls); }
      case ParkTreeOf(y, root, seqNo) =>
        if y == x { ParkKeepsTable(x, was, root, seqNo, s.calls); }
      case Poll(y) =>
        if y == x {
          forall p | p in was.pending ensures CallOkFor(s.calls, p) { OwnCallsAreOk(s, x, p); }
          assert [] + was.pending == was.pending;
          PollKeepsTable(x, was, [], was.pending, s.calls);
          var later := Polled(was.records, was.pending, FuturesOf(s.calls)).1;
          assert [] + later == later;
        }
      case DeliverReleased(y, n) =>
        if y == x { ForgetKeepsTable(x, was, n.ag, s.calls); }
      case Renew(y, region, gen) =>
        if y == x { RenewKeepsTable(x, was, region, gen, s.calls); }
      case _ =>
    }
  }

  lemma RenewKeepsTable(x: TableId, t: Table, region: RegionId, gen: LeaseGen, calls: seq<InFlight>)
    requires TableOk(x, t, calls)
    ensures TableOk(x, t.(owner := Owner(t.owner.cell, region, gen)), calls)
  {
    var u := t.(owner := Owner(t.owner.cell, region, gen));
    forall k | k in u.records ensures RecordOk(x, u.owner.cell, u.records, u.pending, k, calls) {
      assert RecordOk(x, t.owner.cell, t.records, t.pending, k, calls);
    }
  }

  lemma StepKeepsInv(s: System, step: Step)
    requires SystemInv(s) && Enabled(s, step)
    ensures SystemInv(Do(s, step))
  {
    StepKeepsCalls(s, step);
    forall x | x in Do(s, step).tables ensures TableOk(x, Do(s, step).tables[x], Do(s, step).calls) {
      StepKeepsTable(s, step, x);
    }
  }

  // -- Runs ----------------------------------------------------------------------------------

  ghost predicate IsRun(trace: seq<System>, steps: seq<Step>) {
    && |trace| == |steps| + 1 && Initial(trace[0])
    && forall i :: 0 <= i < |steps| ==> Enabled(trace[i], steps[i]) && trace[i + 1] == Do(trace[i], steps[i])
  }

  lemma {:induction false} RunKeepsInv(trace: seq<System>, steps: seq<Step>, i: nat)
    requires IsRun(trace, steps) && i < |trace|
    ensures SystemInv(trace[i])
  {
    if i == 0 {
      NoRowsShaped(trace[0].fence);
    } else {
      RunKeepsInv(trace, steps, i - 1);
      StepKeepsInv(trace[i - 1], steps[i - 1]);
    }
  }

  lemma {:induction false} RunExtendsCalls(trace: seq<System>, steps: seq<Step>, i: nat, j: nat)
    requires IsRun(trace, steps) && i <= j < |trace|
    ensures Extends(trace[i].calls, trace[j].calls)
    decreases j - i
  {
    if i < j {
      RunExtendsCalls(trace, steps, i, j - 1);
      StepExtendsCalls(trace[j - 1], steps[j - 1]);
    }
  }

  /// Table `x` may act on the tree `root` at `epoch`.
  predicate Holds(s: System, x: TableId, root: AgId, epoch: Epoch) {
    x in s.tables && root in s.tables[x].records && s.tables[x].records[root].state == Held
    && s.tables[x].records[root].epoch == epoch
  }

  lemma HolderWon(s: System, x: TableId, root: AgId, epoch: Epoch) returns (i: nat)
    requires SystemInv(s) && Holds(s, x, root, epoch)
    ensures i < |s.calls| && s.calls[i].issuer == Some(x) && Won(s.calls[i])
    ensures s.calls[i].op.root == root && s.calls[i].op.next == epoch
            && s.calls[i].op.owner.cell == s.tables[x].owner.cell
  {
    var t := s.tables[x];
    assert TableOk(x, t, s.calls) && RecordOk(x, t.owner.cell, t.records, t.pending, root, s.calls);
    i :| 0 <= i < |s.calls| && s.calls[i].issuer == Some(x) && Won(s.calls[i]) && s.calls[i].op.root == root
         && s.calls[i].op.next == epoch && s.calls[i].op.owner.cell == t.owner.cell;
  }

  /// Single holder: over a whole run, no two tables ever hold a tree at the same epoch, not even
  /// at different times.
  lemma SingleHolder(trace: seq<System>, steps: seq<Step>, i: nat, j: nat, x: TableId, y: TableId, root: AgId,
                     epoch: Epoch)
    requires IsRun(trace, steps) && i < |trace| && j < |trace|
    requires Holds(trace[i], x, root, epoch) && Holds(trace[j], y, root, epoch)
    ensures x == y
  {
    var last := |trace| - 1;
    RunKeepsInv(trace, steps, i);
    RunKeepsInv(trace, steps, j);
    RunKeepsInv(trace, steps, last);
    RunExtendsCalls(trace, steps, i, last);
    RunExtendsCalls(trace, steps, j, last);
    var a := HolderWon(trace[i], x, root, epoch);
    var b := HolderWon(trace[j], y, root, epoch);
    assert Won(trace[last].calls[a]) && Won(trace[last].calls[b]);
  }

  /// A holder's epoch never exceeds the fence row's; at the row's own epoch the row is active and
  /// owned by the holder's cell.
  lemma HolderIsFenced(trace: seq<System>, steps: seq<Step>, i: nat, x: TableId, root: AgId, epoch: Epoch)
    requires IsRun(trace, steps) && i < |trace| && Holds(trace[i], x, root, epoch)
    ensures var s := trace[i];
      && root in s.fence.rows && epoch <= s.fence.rows[root].epoch
      && (epoch == s.fence.rows[root].epoch ==>
            s.fence.rows[root].state == Active && s.fence.rows[root].owner.cell == s.tables[x].owner.cell)
  {
    RunKeepsInv(trace, steps, i);
    var s := trace[i];
    var a := HolderWon(s, x, root, epoch);
    assert CallOk(s.fence, s.calls[a]);
    assert LineOk(s.fence.rows, root);
  }

  /// A notice drops a tracking only when the fence has already passed its epoch.
  lemma ReleaseIsJustified(trace: seq<System>, steps: seq<Step>, i: nat, x: TableId, n: ReleasedNotice)
    requires IsRun(trace, steps) && i < |trace| && x in trace[i].tables && n in trace[i].fence.released
    requires Superseded(trace[i].tables[x], n.ag, n.epoch)
    ensures n.ag in trace[i].fence.rows
    ensures OurEpoch(trace[i].tables[x].records[n.ag]) < n.epoch <= trace[i].fence.rows[n.ag].epoch
  {
    RunKeepsInv(trace, steps, i);
    var f := trace[i].fence;
    var k :| 0 <= k < |f.events| && f.events[k].ag == n.ag && f.events[k].epoch == n.epoch;
    assert EventOk(f.rows, f.events[k]);
  }

  /// The fence gate: it is open exactly for held trees, and while a call is in flight for the
  /// current tracking of a tree it is shut.
  lemma GateShutsWhileInFlight(trace: seq<System>, steps: seq<Step>, i: nat, x: TableId, root: AgId)
    requires IsRun(trace, steps) && i < |trace| && x in trace[i].tables
    ensures var t := trace[i].tables[x];
      && (GateOpen(t, root) <==> root in t.records && t.records[root].state == Held)
      && (root in t.records ==>
            (GateOpen(t, root) <==> forall p :: p in t.pending && p.root == root ==> !Matches(t.records, p)))
  {
    RunKeepsInv(trace, steps, i);
    var t, calls := trace[i].tables[x], trace[i].calls;
    assert TableOk(x, t, calls);
    if root in t.records {
      assert RecordOk(x, t.owner.cell, t.records, t.pending, root, calls);
      forall p | p in t.pending && p.root == root && Matches(t.records, p) ensures t.records[root].state != Held {
        var k :| 0 <= k < |t.pending| && t.pending[k] == p;
        assert PendingOk(x, t.owner.cell, t.records, t.pending[k], calls);
      }
    }
  }
}
