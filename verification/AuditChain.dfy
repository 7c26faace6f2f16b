// The hash chain of the audit table: what a block's hash covers, when a table
// is a chain, what the append-only hook lets through, and the verifier.

module AuditChain {
  import opened Basics
  import opened Text
  import opened Hashing
  import Json

  /** The columns the anchoring layer fills in; the only ones that may change. */
  datatype ChainColumns = ChainColumns(
    networkId: Option<string>,
    contractAddress: Option<string>,
    transactionHash: Option<string>,
    blockNumber: Option<nat>,
    onChainHash: Option<string>,
    status: string,
    anchoredAt: Option<string>)

  /** A row of audit_blocks. createdAt is the ISO form that is hashed. */
  datatype Block = Block(
    id: nat,
    eventType: string,
    detailsJson: string,
    previousHash: string,
    blockHash: string,
    createdAt: string,
    chain: ChainColumns)

  const LOCAL_ONLY := "LOCAL_ONLY"
  const CONFIRMED := "CONFIRMED"
  const FAILED := "FAILED"

  const UNANCHORED := ChainColumns(None, None, None, None, None, LOCAL_ONLY, None)

  // ---- The hash preimage ----

  function CanonicalFields(eventType: string, detailsJson: string, previousHash: string, timestamp: string)
    : seq<Json.Field>
  {
    [("details_json", detailsJson), ("event_type", eventType), ("previous_hash", previousHash),
        ("timestamp", timestamp)]
  }

  function CalculateHash(lib: Library, eventType: string, detailsJson: string, previousHash: string, timestamp: string)
    : (s: string)
    ensures |s| == 64
  {
    lib.HexDigest(lib.dumps(CanonicalFields(eventType, detailsJson, previousHash, timestamp)))
  }

  function HashedFields(b: Block): seq<Json.Field> {
    CanonicalFields(b.eventType, b.detailsJson, b.previousHash, b.createdAt)
  }

  function Preimage(lib: Library, b: Block): seq<byte> {
    lib.dumps(HashedFields(b))
  }

  /** The literal dictionary is written in the order sort_keys produces. */
  lemma CanonicalKeysAscend(eventType: string, detailsJson: string, previousHash: string, timestamp: string)
    ensures Json.KeysAscend(CanonicalFields(eventType, detailsJson, previousHash, timestamp))
  {
    assert Json.LessAt("details_json", "event_type", 0);
    assert Json.LessAt("event_type", "previous_hash", 0);
    assert Json.LessAt("previous_hash", "timestamp", 0);
  }

  /** Each column is hashed under its own name. */
  lemma CanonicalNames(eventType: string, detailsJson: string, previousHash: string, timestamp: string)
    ensures var fields := CanonicalFields(eventType, detailsJson, previousHash, timestamp);
            && Json.Get(fields, "event_type") == Some(eventType) && Json.Get(fields, "timestamp") == Some(timestamp)
            && Json.Get(fields, "details_json") == Some(detailsJson)
            && Json.Get(fields, "previous_hash") == Some(previousHash)
  {
    CanonicalKeysAscend(eventType, detailsJson, previousHash, timestamp);
    var fields := CanonicalFields(eventType, detailsJson, previousHash, timestamp);
    Json.GetAt(fields, 0);
    Json.GetAt(fields, 1);
    Json.GetAt(fields, 2);
    Json.GetAt(fields, 3);
  }

  /** The four hashed columns can be read back from the preimage. */
  lemma PreimageInjective(lib: Library, a: Block, b: Block)
    requires lib.Lawful() && Preimage(lib, a) == Preimage(lib, b)
    ensures a.eventType == b.eventType && a.detailsJson == b.detailsJson
    ensures a.previousHash == b.previousHash && a.createdAt == b.createdAt
  {
    var fa, fb := HashedFields(a), HashedFields(b);
    assert lib.Determines(fa, fb);
    assert fa[0] == fb[0] && fa[1] == fb[1] && fa[2] == fb[2] && fa[3] == fb[3];
  }

  // ---- Chains ----

  /** "0" * 64, the previous hash of the first block. */
  function Genesis(): (s: string)
    ensures |s| == 64
  {
    seq(64, _ => '0')
  }

  /** The previous_hash that the row at position i has to carry. */
  function Before(blocks: seq<Block>, i: nat): string
    requires i <= |blocks|
  {
    if i == 0 then Genesis() else blocks[i - 1].blockHash
  }

  predicate Sealed(lib: Library, b: Block) {
    b.blockHash == lib.HexDigest(Preimage(lib, b))
  }

  predicate Linked(blocks: seq<Block>, i: nat)
    requires i < |blocks|
  {
    blocks[i].previousHash == Before(blocks, i)
  }

  predicate IsChain(lib: Library, blocks: seq<Block>) {
    && (forall i {:trigger Linked(blocks, i)} :: 0 <= i < |blocks| ==> Linked(blocks, i))
    && (forall i :: 0 <= i < |blocks| ==> Sealed(lib, blocks[i]))
  }

  /** Equal in every hashed column and in the hash. Ids are not hashed. */
  predicate SameRecord(a: Block, b: Block) {
    && a.eventType == b.eventType && a.detailsJson == b.detailsJson
    && a.previousHash == b.previousHash && a.createdAt == b.createdAt
    && a.blockHash == b.blockHash
  }

  /** What comparing the first m rows of one chain with the first n of another
      can turn up; a collision or a preimage of 64 zeros is found in the chains. */
  datatype Evidence =
    | Identical
    | Collision(i: nat, j: nat)
    | ZeroDigest(inFirst: bool, i: nat)

  predicate Supports(lib: Library, a: seq<Block>, m: nat, b: seq<Block>, n: nat, e: Evidence)
    requires m <= |a| && n <= |b|
  {
    match e
    case Identical => m == n && forall i :: 0 <= i < m ==> SameRecord(a[i], b[i])
    case Collision(i, j) => i < m && j < n && lib.Collide(Preimage(lib, a[i]), Preimage(lib, b[j]))
    case ZeroDigest(true, i) => i < m && lib.HexDigest(Preimage(lib, a[i])) == Genesis()
    case ZeroDigest(false, i) => i < n && lib.HexDigest(Preimage(lib, b[i])) == Genesis()
  }

  lemma SameSeal(lib: Library, a: Block, b: Block)
    requires lib.Lawful() && Sealed(lib, a) && Sealed(lib, b) && a.blockHash == b.blockHash
    ensures lib.Collide(Preimage(lib, a), Preimage(lib, b)) || SameRecord(a, b)
  {
    lib.SameHexDigest(Preimage(lib, a), Preimage(lib, b));
    if Preimage(lib, a) == Preimage(lib, b) {
      PreimageInjective(lib, a, b);
    }
  }

  lemma EvidenceExtends(lib: Library, a: seq<Block>, m: nat, b: seq<Block>, n: nat, e: Evidence)
    requires 0 < m <= |a| && 0 < n <= |b| && SameRecord(a[m - 1], b[n - 1]) && Supports(lib, a, m - 1, b, n - 1, e)
    ensures Supports(lib, a, m, b, n, e)
  {}

  lemma CollisionSupports(lib: Library, a: seq<Block>, m: nat, b: seq<Block>, n: nat)
    requires 0 < m <= |a| && 0 < n <= |b| && lib.Collide(Preimage(lib, a[m - 1]), Preimage(lib, b[n - 1]))
    ensures Supports(lib, a, m, b, n, Collision(m - 1, n - 1))
  {}

  /** Rows with one hash collide, or agree and follow rows with one hash. */
  lemma StepBack(lib: Library, a: seq<Block>, m: nat, b: seq<Block>, n: nat) returns (collide: bool)
    requires lib.Lawful() && IsChain(lib, a) && IsChain(lib, b)
    requires m < |a| && n < |b| && a[m].blockHash == b[n].blockHash
    ensures collide ==> lib.Collide(Preimage(lib, a[m]), Preimage(lib, b[n]))
    ensures !collide ==> SameRecord(a[m], b[n]) && Before(a, m) == Before(b, n)
  {
    collide := lib.Collide(Preimage(lib, a[m]), Preimage(lib, b[n]));
    SameSeal(lib, a[m], b[n]);
    assert Linked(a, m) && Linked(b, n);
  }

  /** One prefix is empty, so the other, if not empty, ends in 64 zeros. */
  lemma EmptyEvidence(lib: Library, a: seq<Block>, m: nat, b: seq<Block>, n: nat) returns (e: Evidence)
    requires IsChain(lib, a) && IsChain(lib, b)
    requires m <= |a| && n <= |b| && Before(a, m) == Before(b, n) && (m == 0 || n == 0)
    ensures Supports(lib, a, m, b, n, e)
  {
    if m > 0 {
      assert Sealed(lib, a[m - 1]);
      e := ZeroDigest(true, m - 1);
    } else if n > 0 {
      assert Sealed(lib, b[n - 1]);
      e := ZeroDigest(false, n - 1);
    } else {
      e := Identical;
    }
  }

  /** Prefixes of two chains that end in one hash record the same history, or the
      prefixes themselves hold colliding preimages or a preimage of 64 zeros. */
  lemma {:induction false} TamperEvidence(lib: Library, a: seq<Block>, m: nat, b: seq<Block>, n: nat)
    returns (e: Evidence)
    requires lib.Lawful() && IsChain(lib, a) && IsChain(lib, b)
    requires m <= |a| && n <= |b| && Before(a, m) == Before(b, n)
    ensures Supports(lib, a, m, b, n, e)
  {
    if m == 0 || n == 0 {
      e := EmptyEvidence(lib, a, m, b, n);
    } else {
      var collide := StepBack(lib, a, m - 1, b, n - 1);
      if collide {
        e := Collision(m - 1, n - 1);
        CollisionSupports(lib, a, m, b, n);
      } else {
        e := TamperEvidence(lib, a, m - 1, b, n - 1);
        EvidenceExtends(lib, a, m, b, n, e);
      }
    }
  }

  // ---- The append-only hook ----

  datatype Column =
    | Id | EventType | DetailsJson | PreviousHash | BlockHash | CreatedAt
    | NetworkId | ContractAddress | TransactionHash | BlockNumber | OnChainHash | BlockchainStatus | AnchorTimestamp

  const COLUMNS := [Id, EventType, DetailsJson, PreviousHash, BlockHash, CreatedAt,
                    NetworkId, ContractAddress, TransactionHash, BlockNumber, OnChainHash, BlockchainStatus,
                    AnchorTimestamp]

  const ALLOWED := {NetworkId, ContractAddress, TransactionHash, BlockNumber, OnChainHash, BlockchainStatus,
      AnchorTimestamp}

  predicate HasChanges(before: Block, after: Block, column: Column) {
    match column
    case Id => before.id != after.id
    case EventType => before.eventType != after.eventType
    case DetailsJson => before.detailsJson != after.detailsJson
    case PreviousHash => before.previousHash != after.previousHash
    case BlockHash => before.blockHash != after.blockHash
    case CreatedAt => before.createdAt != after.createdAt
    case NetworkId => before.chain.networkId != after.chain.networkId
    case ContractAddress => before.chain.contractAddress != after.chain.contractAddress
    case TransactionHash => before.chain.transactionHash != after.chain.transactionHash
    case BlockNumber => before.chain.blockNumber != after.chain.blockNumber
    case OnChainHash => before.chain.onChainHash != after.chain.onChainHash
    case BlockchainStatus => before.chain.status != after.chain.status
    case AnchorTimestamp => before.chain.anchoredAt != after.chain.anchoredAt
  }

  /** An update the hook lets through: at most the anchoring columns differ. */
  predicate OnlyAnchoring(before: Block, after: Block) {
    after.(chain := before.chain) == before
  }

  /** receive_before_update: raises on the first changed column outside the
      allowed set, so it accepts exactly the anchoring updates. */
  method ReceiveBeforeUpdate(before: Block, after: Block) returns (accepted: bool)
    ensures accepted <==> OnlyAnchoring(before, after)
  {
    for i := 0 to |COLUMNS|
      invariant forall k :: 0 <= k < i ==> HasChanges(before, after, COLUMNS[k]) ==> COLUMNS[k] in ALLOWED
    {
      if HasChanges(before, after, COLUMNS[i]) {
        if COLUMNS[i] !in ALLOWED {
          assert i < 6;
          return false;
        }
      }
    }
    assert forall k :: 0 <= k < 6 ==> COLUMNS[k] !in ALLOWED;
    assert !HasChanges(before, after, COLUMNS[0]) && !HasChanges(before, after, COLUMNS[1])
        && !HasChanges(before, after, COLUMNS[2]) && !HasChanges(before, after, COLUMNS[3])
        && !HasChanges(before, after, COLUMNS[4]) && !HasChanges(before, after, COLUMNS[5]);
    return true;
  }

  // ---- The verifier ----

  datatype AnchorRead = ReadRaised | EventHash(hash: string)

  datatype ReceiptRead = NotFound | Receipt(status: nat)

  /** What the verifier can see of the blockchain while it runs. */
  datatype View = View(
    enabled: bool,
    connected: bool,
    deployed: bool,
    anchors: nat -> AnchorRead,
    receipts: string -> ReceiptRead)
  {
    predicate ChecksOnChain(b: Block) {
      enabled && connected && deployed && b.chain.status == CONFIRMED
    }
  }

  datatype Reason =
    | PreviousHashMismatch | BlockHashMismatch
    | OnChainAnchorMissing | OnChainHashMismatch
    | OnChainTxFailed | OnChainReceiptNotFound | OnChainException

  datatype Verdict = EmptyTable | ValidTable | InvalidTable | VerificationError

  datatype Report = Report(
    valid: bool,
    verdict: Verdict,
    checkedRecords: nat,
    invalidId: Option<nat>,
    invalidSequence: Option<nat>,
    reason: Option<Reason>)

  /** Why the row after a row with hash expectedPrevious is rejected, if it is. */
  function Fault(lib: Library, view: View, expectedPrevious: string, b: Block): Option<Reason> {
    if b.previousHash != expectedPrevious then Some(PreviousHashMismatch)
    else if b.blockHash != lib.HexDigest(Preimage(lib, b)) then Some(BlockHashMismatch)
    else if view.ChecksOnChain(b) then
      match view.anchors(b.id)
      case ReadRaised => Some(OnChainException)
      case EventHash(hash) =>
        if hash == "" then Some(OnChainAnchorMissing)
        else if hash != b.blockHash then Some(OnChainHashMismatch)
        else if b.chain.transactionHash.None? || b.chain.transactionHash.value == "" then None
        else match view.receipts(b.chain.transactionHash.value)
          case NotFound => Some(OnChainReceiptNotFound)
          case Receipt(status) => if status == 1 then None else Some(OnChainTxFailed)
    else None
  }

  function FaultAt(lib: Library, view: View, blocks: seq<Block>, i: nat): Option<Reason>
    requires i < |blocks|
  {
    Fault(lib, view, Before(blocks, i), blocks[i])
  }

  /** A confirmed row whose anchor reads back as the row's own hash, with a
      successful receipt when the row names a transaction. */
  predicate AnchorAgrees(view: View, b: Block) {
    && view.anchors(b.id) == EventHash(b.blockHash) && b.blockHash != ""
    && var tx := b.chain.transactionHash;
       tx.Some? && tx.value != "" ==> view.receipts(tx.value) == Receipt(1)
  }

  lemma NoFault(lib: Library, view: View, expectedPrevious: string, b: Block)
    ensures Fault(lib, view, expectedPrevious, b) == None
            <==> (b.previousHash == expectedPrevious && Sealed(lib, b)
                  && (view.ChecksOnChain(b) ==> AnchorAgrees(view, b)))
  {}

  /** Which reason is given: the first of the checks that fails, those against the chain of blocks before
      those of a confirmed row against the blockchain. */
  lemma FaultExactly(lib: Library, view: View, expectedPrevious: string, b: Block)
    ensures var fault := Fault(lib, view, expectedPrevious, b);
            var linked := b.previousHash == expectedPrevious;
            var intact := linked && b.blockHash == lib.HexDigest(lib.dumps(HashedFields(b)));
            var checked := intact && b.chain.status == CONFIRMED && view.enabled && view.connected && view.deployed;
            var anchored := checked && view.anchors(b.id) == EventHash(b.blockHash) && b.blockHash != "";
            var tx := if b.chain.transactionHash.Some? then b.chain.transactionHash.value else "";
            && (fault == Some(PreviousHashMismatch) <==> !linked)
            && (fault == Some(BlockHashMismatch) <==> linked && !intact)
            && (fault == Some(OnChainException) <==> checked && view.anchors(b.id) == ReadRaised)
            && (fault == Some(OnChainAnchorMissing) <==> checked && view.anchors(b.id) == EventHash(""))
            && (fault == Some(OnChainHashMismatch) <==>
                  checked && !anchored && view.anchors(b.id) !in {ReadRaised, EventHash("")})
            && (fault == Some(OnChainReceiptNotFound) <==> anchored && tx != "" && view.receipts(tx) == NotFound)
            && (fault == Some(OnChainTxFailed) <==>
                  anchored && tx != "" && view.receipts(tx) !in {NotFound, Receipt(1)})
  {}

  lemma RowFaultless(lib: Library, view: View, blocks: seq<Block>, i: nat)
    requires i < |blocks|
    ensures FaultAt(lib, view, blocks, i) == None
       <==> Linked(blocks, i) && Sealed(lib, blocks[i])
            && (view.ChecksOnChain(blocks[i]) ==> AnchorAgrees(view, blocks[i]))
  {
    NoFault(lib, view, Before(blocks, i), blocks[i]);
  }

  lemma ChainFaultless(lib: Library, view: View, blocks: seq<Block>, i: nat)
    requires i < |blocks| && IsChain(lib, blocks) && AnchorsAgree(view, blocks)
    ensures FaultAt(lib, view, blocks, i) == None
  {
    assert Linked(blocks, i);
    RowFaultless(lib, view, blocks, i);
  }

  /** Without a faulty row the table is a chain that agrees with its anchors. */
  lemma FaultlessIsChain(lib: Library, view: View, blocks: seq<Block>)
    ensures (forall i :: 0 <= i < |blocks| ==> FaultAt(lib, view, blocks, i) == None)
            <==> IsChain(lib, blocks) && AnchorsAgree(view, blocks)
  {
    if IsChain(lib, blocks) && AnchorsAgree(view, blocks) {
      forall i | 0 <= i < |blocks| ensures FaultAt(lib, view, blocks, i) == None {
        ChainFaultless(lib, view, blocks, i);
      }
    } else if forall i :: 0 <= i < |blocks| ==> FaultAt(lib, view, blocks, i) == None {
      forall i | 0 <= i < |blocks| ensures Linked(blocks, i) && Sealed(lib, blocks[i])
          && (view.ChecksOnChain(blocks[i]) ==> AnchorAgrees(view, blocks[i])) {
        RowFaultless(lib, view, blocks, i);
      }
    }
  }

  predicate AnchorsAgree(view: View, blocks: seq<Block>) {
    forall i :: 0 <= i < |blocks| && view.ChecksOnChain(blocks[i]) ==> AnchorAgrees(view, blocks[i])
  }

  /** The report of a table whose row i is the first faulty one. */
  predicate ReportsFault(lib: Library, view: View, blocks: seq<Block>, i: nat, r: Report) {
    && i < |blocks| && FaultAt(lib, view, blocks, i).Some?
    && (forall k :: 0 <= k < i ==> FaultAt(lib, view, blocks, k) == None)
    && r == Report(false, if FaultAt(lib, view, blocks, i) == Some(OnChainException) then VerificationError
                   else InvalidTable,
                   i, Some(blocks[i].id), Some(i + 1), FaultAt(lib, view, blocks, i))
  }

  /** verify_chain: valid exactly when the rows form a chain and every confirmed
      row agrees with its anchor; otherwise the least faulty row is reported and
      checked_records counts the rows before it. None models a failing query. */
  method VerifyChain(lib: Library, view: View, table: Option<seq<Block>>) returns (r: Report)
    ensures table == None ==> r == Report(false, VerificationError, 0, None, None, None)
    ensures table.Some? ==> (r.valid <==> IsChain(lib, table.value) && AnchorsAgree(view, table.value))
    ensures r.valid ==> r == Report(true, if table.value == [] then EmptyTable
                                    else ValidTable, |table.value|, None, None, None)
    ensures table.Some? && !r.valid ==> ReportsFault(lib, view, table.value, r.checkedRecords, r)
  {
    if table == None {
      return Report(false, VerificationError, 0, None, None, None);
    }
    var blocks := table.value;
    FaultlessIsChain(lib, view, blocks);
    if blocks == [] {
      return Report(true, EmptyTable, 0, None, None, None);
    }
    var expectedPrevious := Genesis();
    for i := 0 to |blocks|
      invariant expectedPrevious == Before(blocks, i)
      invariant forall k :: 0 <= k < i ==> FaultAt(lib, view, blocks, k) == None
    {
      var fault := Fault(lib, view, expectedPrevious, blocks[i]);
      assert fault == FaultAt(lib, view, blocks, i);
      if fault.Some? {
        return Report(false, if fault.value == OnChainException then VerificationError else InvalidTable,
                      i, Some(blocks[i].id), Some(i + 1), fault);
      }
      expectedPrevious := blocks[i].blockHash;
    }
    return Report(true, ValidTable, |blocks|, None, None, None);
  }
}
