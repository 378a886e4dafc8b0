/// AgTable: one zone instance's view of the AG trees its cell owns, and the fence gate
/// (engine/authority/src/ag_table.cpp). The statistics counters are left out.
module AgTables {
  import opened AuthorityTypes
  import opened MemoryFence
  import opened Options

  datatype LocalState = Loading | Held | Parking

  /// `Held` is the program's Active; the other names are its own.
  datatype AgRecord = AgRecord(epoch: Epoch, state: LocalState, fenceOpsInFlight: nat, incarnation: nat)

  datatype PendingOp = PendingLoad | PendingPark

  datatype Pending = Pending(root: AgId, op: PendingOp, incarnation: nat, ticket: nat)

  type Records = map<AgId, AgRecord>

  datatype Table = Table(owner: Owner, nextIncarnation: nat, records: Records, pending: seq<Pending>)

  // -- What each call does -------------------------------------------------------------------

  predicate CanLoad(t: Table, root: AgId) {
    root != NO_AG && root !in t.records
  }

  function LoadOp(t: Table, root: AgId, epoch: Epoch, takeover: bool): FenceOp {
    OpAdvance(root, epoch, epoch + 1, t.owner, if takeover then Takeover else Load)
  }

  function Loaded(t: Table, root: AgId, epoch: Epoch, ticket: nat): Table {
    var n := t.nextIncarnation + 1;
    t.(nextIncarnation := n, records := t.records[root := AgRecord(epoch, Loading, 1, n)],
       pending := t.pending + [Pending(root, PendingLoad, n, ticket)])
  }

  predicate CanPark(t: Table, root: AgId) {
    root in t.records && t.records[root].state == Held
  }

  function ParkOp(t: Table, root: AgId, seqNo: StreamSeq): FenceOp
    requires CanPark(t, root)
  {
    OpPark(root, t.records[root].epoch, t.owner, seqNo)
  }

  function ParkedTable(t: Table, root: AgId, ticket: nat): Table
    requires CanPark(t, root)
  {
    var rec := t.records[root];
    t.(records := t.records[root := rec.(state := Parking, fenceOpsInFlight := rec.fenceOpsInFlight + 1)],
       pending := t.pending + [Pending(root, PendingPark, rec.incarnation, ticket)])
  }

  /// A reply applies to the tracking it was made for; a refusal or a completed park drops it.
  function ApplyReply(records: Records, p: Pending, r: FenceResult): Records {
    if p.root !in records || records[p.root].incarnation != p.incarnation then records
    else if r.status != Ok || p.op == PendingPark then records - {p.root}
    else
      var rec := records[p.root];
      records[p.root := rec.(
        epoch := r.epoch,
        state := if rec.state == Loading then Held else rec.state,
        fenceOpsInFlight := if rec.fenceOpsInFlight > 0 then rec.fenceOpsInFlight - 1 else 0)]
  }

  /// The ticket names a call whose reply, once there, is that of a single-tree operation.
  predicate Redeemable(p: Pending, futures: seq<Option<FenceReply>>) {
    p.ticket < |futures| && (futures[p.ticket].Some? ==> futures[p.ticket].value.Single?)
  }

  predicate AllRedeemable(pending: seq<Pending>, futures: seq<Option<FenceReply>>) {
    forall i :: 0 <= i < |pending| ==> Redeemable(pending[i], futures)
  }

  /// The records and pending calls after every reply that has arrived was applied in issue order.
  function Polled(records: Records, pending: seq<Pending>, futures: seq<Option<FenceReply>>)
    : (Records, seq<Pending>)
    requires AllRedeemable(pending, futures)
    decreases |pending|
  {
    if pending == [] then (records, [])
    else
      var p := pending[0];
      if futures[p.ticket].None? then
        var (later, kept) := Polled(records, pending[1..], futures);
        (later, [p] + kept)
      else
        Polled(ApplyReply(records, p, futures[p.ticket].value.result), pending[1..], futures)
  }

  lemma KeepStep(records: Records, kept: seq<Pending>, rest: seq<Pending>, futures: seq<Option<FenceReply>>)
    requires AllRedeemable(rest, futures) && rest != [] && futures[rest[0].ticket].None?
    ensures AllRedeemable(rest[1..], futures)
    ensures Polled(records, rest, futures).0 == Polled(records, rest[1..], futures).0
    ensures kept + Polled(records, rest, futures).1 == kept + [rest[0]] + Polled(records, rest[1..], futures).1
  {
    assert kept + ([rest[0]] + Polled(records, rest[1..], futures).1)
           == kept + [rest[0]] + Polled(records, rest[1..], futures).1;
  }

  /// The epoch a tracking stands for: the one its load asks for while that is in flight.
  function OurEpoch(rec: AgRecord): Epoch {
    if rec.state == Loading then rec.epoch + 1 else rec.epoch
  }

  predicate Superseded(t: Table, root: AgId, epoch: Epoch) {
    root in t.records && OurEpoch(t.records[root]) < epoch
  }

  function Released(t: Table, root: AgId, epoch: Epoch): Table {
    if Superseded(t, root, epoch) then t.(records := t.records - {root}) else t
  }

  function Dropped(t: Table): Table {
    t.(records := map[], pending := [])
  }

  predicate GateOpen(t: Table, root: AgId) {
    root in t.records && t.records[root].state == Held && t.records[root].fenceOpsInFlight == 0
  }

  // -- The table as the program updates it ---------------------------------------------------

  class AgTable {
    var owner: Owner
    var nextIncarnation: nat
    var records: Records
    var pending: seq<Pending>

    ghost function State(): Table
      reads this
    {
      Table(owner, nextIncarnation, records, pending)
    }

    constructor (self: Owner)
      ensures State() == Table(self, 0, map[], [])
    {
      owner, nextIncarnation, records, pending := self, 0, map[], [];
    }

    method SetOwner(owner: Owner)
      modifies this`owner
      ensures this.owner == owner
    {
      this.owner := owner;
    }

    method Load(fence: InMemoryFence, root: AgId, currentEpoch: Epoch, takeover: bool) returns (ok: bool)
      requires fence.Valid()
      modifies this, fence
      ensures fence.Valid() && ok == CanLoad(old(State()), root)
      ensures if ok then
                && fence.Submitted(LoadOp(old(State()), root, currentEpoch, takeover))
                && State() == Loaded(old(State()), root, currentEpoch, |old(fence.calls)|)
              else unchanged(this) && unchanged(fence)
    {
      if root == NO_AG || root in records { return false; }
      nextIncarnation := nextIncarnation + 1;
      records := records[root := AgRecord(currentEpoch, Loading, 1, nextIncarnation)];
      var ticket := fence.Submit(
        OpAdvance(root, currentEpoch, currentEpoch + 1, owner, if takeover then Takeover else AdvanceCause.Load));
      pending := pending + [Pending(root, PendingLoad, nextIncarnation, ticket)];
      return true;
    }

    method Park(fence: InMemoryFence, root: AgId, finalCheckpoint: StreamSeq) returns (ok: bool)
      requires fence.Valid()
      modifies this, fence
      ensures fence.Valid() && ok == CanPark(old(State()), root)
      ensures if ok then
                && fence.Submitted(ParkOp(old(State()), root, finalCheckpoint))
                && State() == ParkedTable(old(State()), root, |old(fence.calls)|)
              else unchanged(this) && unchanged(fence)
    {
      if root !in records || records[root].state != Held { return false; }
      var rec := records[root];
      records := records[root := rec.(state := Parking, fenceOpsInFlight := rec.fenceOpsInFlight + 1)];
      var ticket := fence.Submit(OpPark(root, rec.epoch, owner, finalCheckpoint));
      pending := pending + [Pending(root, PendingPark, rec.incarnation, ticket)];
      return true;
    }

    /// Applies one reply.
    method Receive(p: Pending, r: FenceResult)
      modifies this`records
      ensures records == ApplyReply(old(records), p, r)
    {
      if p.root !in records || records[p.root].incarnation != p.incarnation { return; }
      var rec := records[p.root];
      if rec.fenceOpsInFlight > 0 { rec := rec.(fenceOpsInFlight := rec.fenceOpsInFlight - 1); }
      if r.status != Ok {
        records := records - {p.root};
      } else if p.op == PendingLoad {
        rec := rec.(epoch := r.epoch);
        if rec.state == Loading { rec := rec.(state := Held); }
        records := records[p.root := rec];
      } else {
        records := records - {p.root};
      }
    }

    /// Applies every reply that has arrived, in issue order; returns how many were applied.
    method Poll(fence: InMemoryFence) returns (applied: nat)
      requires AllRedeemable(pending, fence.Futures())
      modifies this`records, this`pending
      ensures (records, pending) == Polled(old(records), old(pending), fence.Futures())
      ensures applied == |old(pending)| - |pending|
    {
      applied := 0;
      var i := 0;
      ghost var start, futures := (records, pending), fence.Futures();
      ghost var kept, rest := [], pending;
      assert kept + Polled(records, rest, futures).1 == Polled(records, rest, futures).1;
      while i < |pending|
        invariant fence.Futures() == futures && i == |kept| && pending == kept + rest
        invariant AllRedeemable(rest, futures) && applied == |start.1| - |pending|
        invariant Polled(start.0, start.1, futures)
                  == (Polled(records, rest, futures).0, kept + Polled(records, rest, futures).1)
        decreases |rest|
      {
        var p := pending[i];
        assert p == rest[0] && Redeemable(p, futures) && AllRedeemable(rest[1..], futures);
        if fence.calls[p.ticket].reply.None? {
          KeepStep(records, kept, rest, futures);
          kept, rest := kept + [p], rest[1..];
          i := i + 1;
        } else {
          Receive(p, fence.calls[p.ticket].reply.value.result);
          rest := rest[1..];
          pending := pending[..i] + pending[i + 1..];
          applied := applied + 1;
        }
      }
      assert rest == [];
    }

    method OnReleased(root: AgId, epoch: Epoch) returns (dropped: bool)
      modifies this`records
      ensures dropped == Superseded(old(State()), root, epoch)
      ensures State() == Released(old(State()), root, epoch)
    {
      if root !in records { return false; }
      var rec := records[root];
      var ours := if rec.state == Loading then rec.epoch + 1 else rec.epoch;
      if ours >= epoch { return false; }
      records := records - {root};
      return true;
    }

    method DropAll()
      modifies this`records, this`pending
      ensures State() == Dropped(old(State()))
    {
      records, pending := map[], [];
    }

    method LedgerGateOpen(root: AgId) returns (open: bool)
      ensures open == GateOpen(State(), root)
    {
      open := root in records && records[root].state == Held && records[root].fenceOpsInFlight == 0;
    }
  }
}
