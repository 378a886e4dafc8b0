/// The authority vocabulary: authority groups (AGs), epochs, owners, fence rows and results
/// (engine/authority/include/helios/authority/types.h and memory_fence.h).
///
/// Identifiers, epochs and generations are 64-bit in the program and unbounded here; 0 is the
/// invalid identifier, as in the program.
module AuthorityTypes {
  type AgId = nat
  type CellId = nat
  type RegionId = nat
  type Epoch = nat
  type LeaseGen = nat
  type StreamSeq = nat

  const NO_AG: AgId := 0

  /// Who simulates an AG: a process incarnation and the region lease it runs under.
  datatype Owner = Owner(cell: CellId, region: RegionId, leaseGen: LeaseGen) {
    predicate IsValid() { cell != 0 }
  }

  const NOBODY := Owner(0, 0, 0)

  datatype RowState = Active | Dormant

  datatype FenceRow = FenceRow(
    ag: AgId, root: AgId, parent: AgId, epoch: Epoch, owner: Owner, state: RowState, parkedSeq: StreamSeq)

  type Rows = map<AgId, FenceRow>

  datatype AgEpoch = AgEpoch(ag: AgId, epoch: Epoch)

  datatype AdvanceCause =
    Handoff | Load | Takeover | Abort | Join | Leave | Park | Recovery | Migrate

  datatype FenceStatus =
    Ok | Stale | TreeMismatch | NotFound | NotRoot | NeedsTakeover | InvalidArgument | Unavailable

  datatype FenceResult = FenceResult(status: FenceStatus, epoch: Epoch, previousOwner: Owner)

  datatype BulkFenceResult = BulkFenceResult(status: FenceStatus, advanced: seq<AgEpoch>)

  datatype FenceEvent =
    FenceEvent(ag: AgId, epoch: Epoch, previousOwner: Owner, owner: Owner, cause: AdvanceCause)

  datatype ReleasedNotice = ReleasedNotice(cell: CellId, ag: AgId, epoch: Epoch)

  /// One call of the fence interface, as it waits in the deferred queue.
  datatype FenceOp =
    | OpAdvance(root: AgId, from: Epoch, next: Epoch, owner: Owner, cause: AdvanceCause)
    | OpPark(root: AgId, epoch: Epoch, owner: Owner, seqNo: StreamSeq)
    | OpJoin(member: AgId, memberEpoch: Epoch, root: AgId, rootEpoch: Epoch, owner: Owner)
    | OpLeave(member: AgId, epoch: Epoch, owner: Owner)
    | OpAdvanceMany(roots: seq<AgEpoch>, owner: Owner)
    | OpAdvanceOwnedBy(region: RegionId, gen: LeaseGen, owner: Owner)
    | OpMigrate(region: RegionId, gen: LeaseGen, owner: Owner, manifest: seq<AgEpoch>)

  /// The reply of a call: the bulk operations return a list of advanced roots.
  datatype FenceReply = Single(result: FenceResult) | Bulk(bulk: BulkFenceResult) {
    function Status(): FenceStatus {
      match this
      case Single(r) => r.status
      case Bulk(b) => b.status
    }
  }

  /// The fence's whole store: the rows, the outbox and the notices, and the depth limit.
  datatype FenceState = FenceState(
    rows: Rows, events: seq<FenceEvent>, released: seq<ReleasedNotice>, maxTreeDepth: nat)
}
