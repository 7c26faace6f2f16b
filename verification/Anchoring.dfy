// append_block: the chained insert, then up to three attempts to anchor the new
// row in a write-once contract, against an arbitrary blockchain environment.
// Runs of the whole ledger and what an anchor says about a rewritten table.

module Anchoring {
  import opened Basics
  import opened Hashing
  import opened AuditChain

  // ---- The contract and the mempool ----

  datatype Anchor = Anchor(eventHash: string, previousHash: string)

  datatype Tx = Tx(id: nat, anchor: Anchor)

  /** The contract's mapping, its event log, every transaction the service ever
      broadcast, and the calls other accounts make of the public method, now or later.
      The environment may mine any of them at any time. */
  datatype World = World(anchors: map<nat, Anchor>, emitted: seq<nat>, broadcast: set<Tx>, others: set<Tx>)
  {
    function EventHashAt(id: nat): string {
      if id in anchors then anchors[id].eventHash else ""
    }

    /** appendAuditAnchor: reverts when the slot already has an event hash. */
    function Execute(tx: Tx): World {
      if EventHashAt(tx.id) != "" then this
      else this.(anchors := anchors[tx.id := tx.anchor], emitted := emitted + [tx.id])
    }

    /** Transactions mined behind the service's back. */
    function MineLate(txs: seq<Tx>): World
      decreases |txs|
    {
      if txs == [] then this
      else (if txs[0] in broadcast + others then Execute(txs[0]) else this).MineLate(txs[1..])
    }
  }

  /** How sending one transaction ends. */
  datatype Submission =
    | NotSent                              // an exception before the broadcast
    | TimedOut                             // broadcast, but waiting for the receipt raised
    | Mined(gas: bool, receipt: ChainColumns)  // a receipt came back; without gas it reverts

  datatype Attempt = Attempt(beforeCheck: seq<Tx>, checkWorks: bool, submission: Submission, afterSend: seq<Tx>)

  datatype Environment = Environment(connected: bool, deployed: bool, attempts: nat -> Attempt)

  datatype Settings = Settings(enabled: bool, required: bool)

  // ---- The retry machine ----

  const MAX_RETRIES: nat := 3

  datatype Anchored = Anchored(world: World, columns: ChainColumns, raised: bool)

  /** The world when the submission of an attempt is over. */
  function Submit(w: World, tx: Tx, attempt: Attempt): World {
    match attempt.submission
    case NotSent => w
    case TimedOut => w.(broadcast := w.broadcast + {tx}).MineLate(attempt.afterSend)
    case Mined(gas, _) =>
      var sent := w.(broadcast := w.broadcast + {tx}).MineLate(attempt.afterSend);
      if gas then sent.Execute(tx) else sent
  }

  /** The receipt has status 1: the transaction ran and the slot was free. */
  predicate Succeeds(w: World, tx: Tx, attempt: Attempt) {
    && attempt.submission.Mined? && attempt.submission.gas
    && w.(broadcast := w.broadcast + {tx}).MineLate(attempt.afterSend).EventHashAt(tx.id) == ""
  }

  predicate AlreadyAnchored(w: World, tx: Tx, attempt: Attempt) {
    attempt.checkWorks && w.EventHashAt(tx.id) != ""
  }

  /** Attempts k, k + 1, ... of the anchoring loop for one row. */
  function Retry(k: nat, w: World, tx: Tx, columns: ChainColumns, required: bool, attempts: nat -> Attempt): Anchored
    requires k <= MAX_RETRIES
    decreases MAX_RETRIES - k
  {
    if k == MAX_RETRIES then Anchored(w, columns, false)
    else
      var attempt := attempts(k);
      var last := k == MAX_RETRIES - 1;
      var w1 := w.MineLate(attempt.beforeCheck);
      if AlreadyAnchored(w1, tx, attempt) then Anchored(w1, columns, false)
      else
        var w2 := Submit(w1, tx, attempt);
        if Succeeds(w1, tx, attempt) then Anchored(w2, attempt.submission.receipt.(status := CONFIRMED), false)
        else if last && required then Anchored(w2, columns.(status := FAILED), true)
        else Retry(k + 1, w2, tx, AfterFailure(k, attempt, columns), required, attempts)
  }

  /** A reverted receipt marks the row FAILED at once, an exception only at the end. */
  function AfterFailure(k: nat, attempt: Attempt, columns: ChainColumns): ChainColumns {
    if k == MAX_RETRIES - 1 || attempt.submission.Mined? then columns.(status := FAILED) else columns
  }

  // ---- The ledger ----

  datatype Ledger = Ledger(blocks: seq<Block>, world: World)

  datatype Request = Request(eventType: string, detailsJson: string, timestamp: string)

  function NewBlock(lib: Library, blocks: seq<Block>, request: Request): Block {
    var previousHash := Before(blocks, |blocks|);
    Block(|blocks| + 1, request.eventType, request.detailsJson, previousHash,
          CalculateHash(lib, request.eventType, request.detailsJson, previousHash, request.timestamp),
          request.timestamp, UNANCHORED)
  }

  function AnchorTx(b: Block): Tx {
    Tx(b.id, Anchor(b.blockHash, b.previousHash))
  }

  datatype Appended = Appended(ledger: Ledger, raised: bool)

  /** append_block as one atomic step. */
  function Append(lib: Library, settings: Settings, l: Ledger, request: Request, env: Environment): Appended {
    var b := NewBlock(lib, l.blocks, request);
    if !settings.enabled then Appended(Ledger(l.blocks + [b], l.world), false)
    else if !env.connected || !env.deployed then Appended(Ledger(l.blocks + [b], l.world), settings.required)
    else
      var r := Retry(0, l.world, AnchorTx(b), b.chain, settings.required, env.attempts);
      Appended(Ledger(l.blocks + [b.(chain := r.columns)], r.world), r.raised)
  }

  const NEW_CONTRACT := World(map[], [], {}, {})

  /** What can happen to the ledger. */
  datatype Event =
    | AppendEvent(request: Request, env: Environment)
    | UpdateEvent(row: nat, after: Block)
    | DeleteEvent(row: nat)
    | LateMiningEvent(txs: seq<Tx>)

  /** The hook refuses every delete and every update outside the anchoring columns. */
  function Step(lib: Library, settings: Settings, l: Ledger, e: Event): Ledger {
    match e
    case AppendEvent(request, env) => Append(lib, settings, l, request, env).ledger
    case UpdateEvent(row, after) =>
      if row < |l.blocks| && OnlyAnchoring(l.blocks[row], after) then l.(blocks := l.blocks[row := after]) else l
    case DeleteEvent(row) => l
    case LateMiningEvent(txs) => l.(world := l.world.MineLate(txs))
  }

  /** From an empty table and any contract, new or left over from an earlier table. */
  function Run(lib: Library, settings: Settings, start: World, events: seq<Event>): Ledger {
    if events == [] then Ledger([], start)
    else Step(lib, settings, Run(lib, settings, start, events[..|events| - 1]), events[|events| - 1])
  }

  // ---- What every world keeps ----

  predicate Backed(tx: Tx, blocks: seq<Block>) {
    1 <= tx.id <= |blocks| && tx == AnchorTx(blocks[tx.id - 1])
  }

  /** Every transaction of the service carries the hash of the row with its id, every
      anchor came from a transaction, and the contract wrote each slot once. A call of
      others with an empty event hash leaves its slot free and is not counted. */
  ghost predicate WorldOk(w: World, blocks: seq<Block>) {
    && (forall tx <- w.broadcast :: Backed(tx, blocks))
    && (forall tx <- w.others :: tx.anchor.eventHash != "")
    && (forall id <- w.anchors :: Tx(id, w.anchors[id]) in w.broadcast + w.others)
    && (forall id <- w.anchors :: id in w.emitted)
    && (forall i :: 0 <= i < |w.emitted| ==> w.emitted[i] in w.anchors)
    && (forall i, j :: 0 <= i < j < |w.emitted| ==> w.emitted[i] != w.emitted[j])
  }

  /** Anchors are never lost or changed. */
  ghost predicate Extends(w: World, w': World) {
    && w.broadcast <= w'.broadcast && w'.others == w.others
    && forall id <- w.anchors :: id in w'.anchors && w'.anchors[id] == w.anchors[id]
  }

  ghost predicate IdsInOrder(blocks: seq<Block>) {
    forall i :: 0 <= i < |blocks| ==> blocks[i].id == i + 1
  }

  ghost predicate Hashed(blocks: seq<Block>) {
    forall i :: 0 <= i < |blocks| ==> blocks[i].blockHash != ""
  }

  predicate HoldsAnchor(w: World, b: Block) {
    b.id in w.anchors && w.anchors[b.id] == AnchorTx(b).anchor
  }

  /** The slot was filled by somebody else. */
  predicate ForeignAt(w: World, id: nat) {
    id in w.anchors && Tx(id, w.anchors[id]) !in w.broadcast
  }

  ghost predicate Inv(lib: Library, l: Ledger) {
    && IsChain(lib, l.blocks) && IdsInOrder(l.blocks) && Hashed(l.blocks)
    && WorldOk(l.world, l.blocks)
  }

  /** A row marked CONFIRMED is anchored with its own hash. */
  ghost predicate ConfirmedAnchored(l: Ledger) {
    forall i :: 0 <= i < |l.blocks| && l.blocks[i].chain.status == CONFIRMED ==> HoldsAnchor(l.world, l.blocks[i])
  }

  lemma Nonempty(w: World, blocks: seq<Block>, tx: Tx)
    requires WorldOk(w, blocks) && Hashed(blocks) && tx in w.broadcast + w.others
    ensures tx.anchor.eventHash != ""
  {
    assert tx in w.broadcast ==> Backed(tx, blocks);
  }

  lemma ExecuteOk(w: World, tx: Tx, blocks: seq<Block>)
    requires WorldOk(w, blocks) && Hashed(blocks) && tx in w.broadcast + w.others
    ensures WorldOk(w.Execute(tx), blocks) && Extends(w, w.Execute(tx))
    ensures w.Execute(tx).EventHashAt(tx.id) != ""
    ensures w.EventHashAt(tx.id) == "" ==> w.Execute(tx).anchors[tx.id] == tx.anchor
  {
    Nonempty(w, blocks, tx);
    if tx.id in w.anchors {
      Nonempty(w, blocks, Tx(tx.id, w.anchors[tx.id]));
    }
  }

  lemma {:induction false} MineLateOk(w: World, txs: seq<Tx>, blocks: seq<Block>)
    requires WorldOk(w, blocks) && Hashed(blocks)
    ensures WorldOk(w.MineLate(txs), blocks) && Extends(w, w.MineLate(txs))
    ensures w.MineLate(txs).broadcast == w.broadcast
    decreases |txs|
  {
    if txs != [] {
      if txs[0] in w.broadcast + w.others {
        ExecuteOk(w, txs[0], blocks);
        MineLateOk(w.Execute(txs[0]), txs[1..], blocks);
      } else {
        MineLateOk(w, txs[1..], blocks);
      }
    }
  }

  /** A slot reads as filled when it is; what the service filled carries the row's hash. */
  lemma AnchoredOk(w: World, id: nat, blocks: seq<Block>)
    requires WorldOk(w, blocks) && Hashed(blocks)
    ensures w.EventHashAt(id) != "" <==> id in w.anchors
    ensures id in w.anchors && !ForeignAt(w, id) ==>
        1 <= id <= |blocks| && w.anchors[id] == AnchorTx(blocks[id - 1]).anchor
  {
    if id in w.anchors {
      Nonempty(w, blocks, Tx(id, w.anchors[id]));
      assert !ForeignAt(w, id) ==> Backed(Tx(id, w.anchors[id]), blocks);
    }
  }

  lemma SubmitOk(w: World, tx: Tx, attempt: Attempt, blocks: seq<Block>)
    requires WorldOk(w, blocks) && Hashed(blocks) && Backed(tx, blocks)
    ensures WorldOk(Submit(w, tx, attempt), blocks) && Extends(w, Submit(w, tx, attempt))
    ensures Succeeds(w, tx, attempt) ==>
              tx.id in Submit(w, tx, attempt).anchors && Submit(w, tx, attempt).anchors[tx.id] == tx.anchor
  {
    if !attempt.submission.NotSent? {
      var sent := w.(broadcast := w.broadcast + {tx});
      assert WorldOk(sent, blocks);
      MineLateOk(sent, attempt.afterSend, blocks);
      if attempt.submission.Mined? && attempt.submission.gas {
        ExecuteOk(sent.MineLate(attempt.afterSend), tx, blocks);
      }
    }
  }

  ghost predicate RetryPost(k: nat, w: World, tx: Tx, r: Anchored, required: bool, blocks: seq<Block>) {
    && WorldOk(r.world, blocks) && Extends(w, r.world)
    && (r.columns.status == CONFIRMED ==> tx.id in r.world.anchors && r.world.anchors[tx.id] == tx.anchor && !r.raised)
    && (required && !r.raised && k < MAX_RETRIES ==> tx.id in r.world.anchors)
    && (r.raised ==> required)
  }

  /** Over every environment: anchors are kept, CONFIRMED is only reported for a row
      anchored with its own hash, and when anchoring is required a normal return means
      that the slot is filled, whatever status the idempotency check left behind. */
  lemma {:induction false} RetryOk(k: nat, w: World, tx: Tx, columns: ChainColumns, required: bool,
                                   attempts: nat -> Attempt, blocks: seq<Block>)
    requires k <= MAX_RETRIES && WorldOk(w, blocks) && Hashed(blocks) && Backed(tx, blocks)
    requires columns.status != CONFIRMED
    ensures RetryPost(k, w, tx, Retry(k, w, tx, columns, required, attempts), required, blocks)
    decreases MAX_RETRIES - k
  {
    if k < MAX_RETRIES {
      var attempt := attempts(k);
      var w1 := w.MineLate(attempt.beforeCheck);
      MineLateOk(w, attempt.beforeCheck, blocks);
      if AlreadyAnchored(w1, tx, attempt) {
        AnchoredOk(w1, tx.id, blocks);
      } else {
        SubmitOk(w1, tx, attempt, blocks);
        var w2 := Submit(w1, tx, attempt);
        RetryOk(k + 1, w2, tx, AfterFailure(k, attempt, columns), required, attempts, blocks);
        var r := Retry(k + 1, w2, tx, AfterFailure(k, attempt, columns), required, attempts);
        if !Succeeds(w1, tx, attempt) && !(k == MAX_RETRIES - 1 && required) {
          ExtendsTransitive(w, w1, w2);
          ExtendsTransitive(w, w2, r.world);
        }
      }
    }
  }

  lemma ExtendsTransitive(a: World, b: World, c: World)
    requires Extends(a, b) && Extends(b, c)
    ensures Extends(a, c)
  {}

  lemma WorldGrows(w: World, blocks: seq<Block>, b: Block)
    requires WorldOk(w, blocks)
    ensures WorldOk(w, blocks + [b])
  {
    forall tx | tx in w.broadcast ensures Backed(tx, blocks + [b]) {
      assert Backed(tx, blocks);
    }
  }

  /** Rewriting anchoring columns changes neither the chain nor the transactions. */
  lemma ColumnsOk(lib: Library, l: Ledger, row: nat, after: Block)
    requires Inv(lib, l) && row < |l.blocks| && OnlyAnchoring(l.blocks[row], after)
    ensures Inv(lib, Ledger(l.blocks[row := after], l.world))
  {
    var blocks := l.blocks[row := after];
    forall i | 0 <= i < |blocks| ensures Linked(blocks, i) {
      assert Linked(l.blocks, i);
    }
    assert HashedFields(after) == HashedFields(l.blocks[row]);
    forall tx | tx in l.world.broadcast ensures Backed(tx, blocks) {
      assert Backed(tx, l.blocks);
    }
  }

  lemma NewBlockExtends(lib: Library, blocks: seq<Block>, request: Request)
    requires IsChain(lib, blocks)
    ensures IsChain(lib, blocks + [NewBlock(lib, blocks, request)])
  {
    var b := NewBlock(lib, blocks, request);
    var blocks' := blocks + [b];
    assert Sealed(lib, b);
    forall i | 0 <= i < |blocks'| ensures Linked(blocks', i) {
      if i < |blocks| {
        assert Linked(blocks, i);
      }
    }
  }

  lemma InsertOk(lib: Library, l: Ledger, request: Request)
    requires Inv(lib, l)
    ensures Inv(lib, Ledger(l.blocks + [NewBlock(lib, l.blocks, request)], l.world))
  {
    WorldGrows(l.world, l.blocks, NewBlock(lib, l.blocks, request));
    NewBlockExtends(lib, l.blocks, request);
  }

  ghost predicate AppendPost(lib: Library, settings: Settings, l: Ledger, r: Appended) {
    && Inv(lib, r.ledger) && Extends(l.world, r.ledger.world)
    && |r.ledger.blocks| == |l.blocks| + 1 && r.ledger.blocks[..|l.blocks|] == l.blocks
    && var b := r.ledger.blocks[|l.blocks|];
       && (b.chain.status == CONFIRMED ==> HoldsAnchor(r.ledger.world, b))
       && (settings.enabled && settings.required && !r.raised ==>
             b.id in r.ledger.world.anchors && (HoldsAnchor(r.ledger.world, b) || ForeignAt(r.ledger.world, b.id)))
       && (r.raised ==> settings.enabled && settings.required)
  }

  lemma AnchorNewRow(lib: Library, settings: Settings, l: Ledger, request: Request, env: Environment)
    requires Inv(lib, l) && settings.enabled && env.connected && env.deployed
    ensures AppendPost(lib, settings, l, Append(lib, settings, l, request, env))
  {
    var b := NewBlock(lib, l.blocks, request);
    var blocks := l.blocks + [b];
    InsertOk(lib, l, request);
    var r := Retry(0, l.world, AnchorTx(b), b.chain, settings.required, env.attempts);
    RetryOk(0, l.world, AnchorTx(b), b.chain, settings.required, env.attempts, blocks);
    AnchoredOk(r.world, b.id, blocks);
    var row := b.(chain := r.columns);
    ColumnsOk(lib, Ledger(blocks, r.world), |l.blocks|, row);
    assert blocks[|l.blocks| := row] == l.blocks + [row];
  }

  /** One append, in every environment: the invariant holds again, nothing already
      anchored is touched, and the status and the exception mean what they say. */
  lemma AppendOk(lib: Library, settings: Settings, l: Ledger, request: Request, env: Environment)
    requires Inv(lib, l)
    ensures AppendPost(lib, settings, l, Append(lib, settings, l, request, env))
  {
    if settings.enabled && env.connected && env.deployed {
      AnchorNewRow(lib, settings, l, request, env);
    } else {
      InsertOk(lib, l, request);
    }
  }

  /** The new row records the request. Unless anchoring is enabled and the blockchain can be reached, the row
      stays as it was inserted and the contract is not touched; only required anchoring then raises. */
  lemma AppendRecords(lib: Library, settings: Settings, l: Ledger, request: Request, env: Environment)
    requires Inv(lib, l)
    ensures var r := Append(lib, settings, l, request, env);
            && |r.ledger.blocks| == |l.blocks| + 1
            && var b := r.ledger.blocks[|l.blocks|];
               && b.id == |l.blocks| + 1 && b.eventType == request.eventType && b.detailsJson == request.detailsJson
               && b.createdAt == request.timestamp
               && (!settings.enabled || !env.connected || !env.deployed ==>
                     && b.chain == ChainColumns(None, None, None, None, None, LOCAL_ONLY, None)
                     && r.ledger.world == l.world && (r.raised <==> settings.enabled && settings.required))
  {}

  /** Nothing is mined around this attempt, and its transaction does not succeed. */
  predicate Idle(attempt: Attempt) {
    && attempt.beforeCheck == [] && attempt.afterSend == []
    && !(attempt.submission.Mined? && attempt.submission.gas)
  }

  lemma IdleSubmit(w: World, tx: Tx, attempt: Attempt)
    requires Idle(attempt)
    ensures w.MineLate(attempt.beforeCheck) == w && Submit(w, tx, attempt).anchors == w.anchors
    ensures !Succeeds(w, tx, attempt)
  {}

  lemma SuccessSubmits(w: World, tx: Tx, attempt: Attempt)
    requires attempt.beforeCheck == [] && attempt.afterSend == [] && attempt.submission.Mined? && attempt.submission.gas
    requires tx.id !in w.anchors
    ensures w.MineLate(attempt.beforeCheck) == w && Succeeds(w, tx, attempt)
    ensures Submit(w, tx, attempt).anchors == w.anchors[tx.id := tx.anchor]
  {}

  lemma {:induction false} RetryConfirms(k: nat, w: World, tx: Tx, columns: ChainColumns, required: bool,
                                         attempts: nat -> Attempt, n: nat)
    requires k <= n < MAX_RETRIES && tx.id !in w.anchors
    requires forall j :: k <= j < n ==> Idle(attempts(j))
    requires attempts(n).beforeCheck == [] && attempts(n).afterSend == []
        && attempts(n).submission.Mined? && attempts(n).submission.gas
    ensures var r := Retry(k, w, tx, columns, required, attempts);
            && !r.raised && r.columns == attempts(n).submission.receipt.(status := CONFIRMED)
            && r.world.anchors == w.anchors[tx.id := tx.anchor]
    decreases n - k
  {
    if k == n {
      SuccessSubmits(w, tx, attempts(n));
    } else {
      IdleSubmit(w, tx, attempts(k));
      RetryConfirms(k + 1, Submit(w, tx, attempts(k)), tx, AfterFailure(k, attempts(k), columns), required, attempts,
                    n);
    }
  }

  /** If one of the three attempts goes through and those before it come to nothing, the row is anchored in its
      free slot with its own hashes, and carries the receipt's columns, marked CONFIRMED. */
  lemma AppendConfirms(lib: Library, settings: Settings, l: Ledger, request: Request, env: Environment, n: nat)
    requires Inv(lib, l) && settings.enabled && env.connected && env.deployed
    requires n < 3 && |l.blocks| + 1 !in l.world.anchors
    requires forall j :: 0 <= j < n ==> Idle(env.attempts(j))
    requires env.attempts(n).beforeCheck == [] && env.attempts(n).afterSend == []
        && env.attempts(n).submission.Mined? && env.attempts(n).submission.gas
    ensures var r := Append(lib, settings, l, request, env);
            var b := r.ledger.blocks[|l.blocks|];
            && !r.raised && b.chain == env.attempts(n).submission.receipt.(status := CONFIRMED)
            && r.ledger.world.anchors == l.world.anchors[b.id := Anchor(b.blockHash, b.previousHash)]
  {
    var b := NewBlock(lib, l.blocks, request);
    RetryConfirms(0, l.world, AnchorTx(b), b.chain, settings.required, env.attempts, n);
  }

  lemma {:induction false} RetryFails(k: nat, w: World, tx: Tx, columns: ChainColumns, required: bool,
                                      attempts: nat -> Attempt)
    requires k < MAX_RETRIES && tx.id !in w.anchors
    requires forall j :: k <= j < MAX_RETRIES ==> Idle(attempts(j))
    ensures var r := Retry(k, w, tx, columns, required, attempts);
            r.raised == required && r.columns == columns.(status := FAILED) && r.world.anchors == w.anchors
    decreases MAX_RETRIES - k
  {
    IdleSubmit(w, tx, attempts(k));
    if k + 1 < MAX_RETRIES {
      RetryFails(k + 1, Submit(w, tx, attempts(k)), tx, AfterFailure(k, attempts(k), columns), required, attempts);
    }
  }

  /** If all three come to nothing, the row is marked FAILED, nothing is anchored, and required anchoring raises. */
  lemma AppendFails(lib: Library, settings: Settings, l: Ledger, request: Request, env: Environment)
    requires Inv(lib, l) && settings.enabled && env.connected && env.deployed && |l.blocks| + 1 !in l.world.anchors
    requires Idle(env.attempts(0)) && Idle(env.attempts(1)) && Idle(env.attempts(2))
    ensures var r := Append(lib, settings, l, request, env);
            var b := r.ledger.blocks[|l.blocks|];
            && r.raised == settings.required && r.ledger.world.anchors == l.world.anchors
            && b.chain == ChainColumns(None, None, None, None, None, FAILED, None)
  {
    var b := NewBlock(lib, l.blocks, request);
    RetryFails(0, l.world, AnchorTx(b), b.chain, settings.required, env.attempts);
  }

  lemma FilledSubmit(w: World, tx: Tx, attempt: Attempt)
    requires attempt.beforeCheck == [] && attempt.afterSend == [] && w.EventHashAt(tx.id) != ""
    ensures w.MineLate(attempt.beforeCheck) == w && Submit(w, tx, attempt).anchors == w.anchors
    ensures !Succeeds(w, tx, attempt)
  {}

  lemma {:induction false} RetryUnchecked(k: nat, w: World, tx: Tx, columns: ChainColumns, required: bool,
                                          attempts: nat -> Attempt)
    requires k < MAX_RETRIES && w.EventHashAt(tx.id) != ""
    requires forall j :: k <= j < MAX_RETRIES ==>
        attempts(j).beforeCheck == [] && attempts(j).afterSend == [] && !attempts(j).checkWorks
    ensures var r := Retry(k, w, tx, columns, required, attempts);
            r.raised == required && r.columns == columns.(status := FAILED) && r.world.anchors == w.anchors
    decreases MAX_RETRIES - k
  {
    FilledSubmit(w, tx, attempts(k));
    if k + 1 < MAX_RETRIES {
      RetryUnchecked(k + 1, Submit(w, tx, attempts(k)), tx, AfterFailure(k, attempts(k), columns), required, attempts);
    }
  }

  /** A slot that is already filled ends the call normally at the first idempotency check that reads it, with
      the row as it was inserted. */
  lemma AppendFound(lib: Library, settings: Settings, l: Ledger, request: Request, env: Environment)
    requires Inv(lib, l) && settings.enabled && env.connected && env.deployed && |l.blocks| + 1 in l.world.anchors
    requires env.attempts(0).beforeCheck == [] && env.attempts(0).checkWorks
    ensures var r := Append(lib, settings, l, request, env);
            && r.ledger.world == l.world && !r.raised
            && r.ledger.blocks[|l.blocks|].chain == ChainColumns(None, None, None, None, None, LOCAL_ONLY, None)
  {
    AnchoredOk(l.world, |l.blocks| + 1, l.blocks);
    assert l.world.MineLate([]) == l.world;
  }

  /** If every such check raises, whatever is sent to the filled slot is reverted, and the call ends as one whose
      attempts are used up. */
  lemma AppendUnseen(lib: Library, settings: Settings, l: Ledger, request: Request, env: Environment)
    requires Inv(lib, l) && settings.enabled && env.connected && env.deployed && |l.blocks| + 1 in l.world.anchors
    requires forall j :: 0 <= j < 3 ==>
        env.attempts(j).beforeCheck == [] && env.attempts(j).afterSend == [] && !env.attempts(j).checkWorks
    ensures var r := Append(lib, settings, l, request, env);
            && r.ledger.world.anchors == l.world.anchors && r.raised == settings.required
            && r.ledger.blocks[|l.blocks|].chain == ChainColumns(None, None, None, None, None, FAILED, None)
  {
    var b := NewBlock(lib, l.blocks, request);
    AnchoredOk(l.world, b.id, l.blocks);
    RetryUnchecked(0, l.world, AnchorTx(b), b.chain, settings.required, env.attempts);
  }

  lemma StepOk(lib: Library, settings: Settings, l: Ledger, e: Event)
    requires Inv(lib, l)
    ensures Inv(lib, Step(lib, settings, l, e)) && Extends(l.world, Step(lib, settings, l, e).world)
    ensures ConfirmedAnchored(l) && !e.UpdateEvent? ==> ConfirmedAnchored(Step(lib, settings, l, e))
  {
    match e
    case AppendEvent(request, env) =>
      AppendOk(lib, settings, l, request, env);
      var l' := Step(lib, settings, l, e);
      if ConfirmedAnchored(l) {
        forall i | 0 <= i < |l'.blocks| && l'.blocks[i].chain.status == CONFIRMED
          ensures HoldsAnchor(l'.world, l'.blocks[i])
        {
          if i < |l.blocks| {
            assert l'.blocks[i] == l'.blocks[..|l.blocks|][i] == l.blocks[i];
            assert HoldsAnchor(l.world, l.blocks[i]);
          }
        }
      }
    case UpdateEvent(row, after) =>
      if row < |l.blocks| && OnlyAnchoring(l.blocks[row], after) {
        ColumnsOk(lib, l, row, after);
      }
    case DeleteEvent(_) =>
    case LateMiningEvent(txs) =>
      MineLateOk(l.world, txs, l.blocks);
  }

  /** Every run of appends, mixed with updates and deletes the hook lets through or
      refuses and with late mining, leaves a table that passes the off-chain checks;
      each slot of the contract was written at most once, by the service only with its
      row's hash. */
  lemma {:induction false} EveryRun(lib: Library, settings: Settings, start: World, events: seq<Event>)
    requires WorldOk(start, [])
    ensures Inv(lib, Run(lib, settings, start, events)) && Extends(start, Run(lib, settings, start, events).world)
    ensures (forall e <- events :: !e.UpdateEvent?) ==> ConfirmedAnchored(Run(lib, settings, start, events))
  {
    if events != [] {
      var n := |events| - 1;
      EveryRun(lib, settings, start, events[..n]);
      StepOk(lib, settings, Run(lib, settings, start, events[..n]), events[n]);
    }
  }

  /** An anchor outlives everything that happens later. */
  lemma {:induction false} AnchorsPersist(lib: Library, settings: Settings, start: World, events: seq<Event>, n: nat)
    requires WorldOk(start, []) && n <= |events|
    ensures Extends(Run(lib, settings, start, events[..n]).world, Run(lib, settings, start, events).world)
  {
    if n < |events| {
      var m := |events| - 1;
      AnchorsPersist(lib, settings, start, events[..m], n);
      assert events[..m][..n] == events[..n];
      EveryRun(lib, settings, start, events[..m]);
      StepOk(lib, settings, Run(lib, settings, start, events[..m]), events[m]);
    } else {
      assert events[..n] == events;
    }
  }

  // ---- What the status says ----

  /** How the loop ends: the idempotency check finds the slot filled (after an attempt that
      reverted, or not), a receipt reports success, or the attempts are used up. */
  datatype Ending = ByCheck(reverted: bool) | BySuccess | Exhausted

  function EndOf(k: nat, w: World, tx: Tx, attempts: nat -> Attempt, reverted: bool): Ending
    requires k <= MAX_RETRIES
    decreases MAX_RETRIES - k
  {
    if k == MAX_RETRIES then Exhausted
    else
      var w1 := w.MineLate(attempts(k).beforeCheck);
      if AlreadyAnchored(w1, tx, attempts(k)) then ByCheck(reverted)
      else if Succeeds(w1, tx, attempts(k)) then BySuccess
      else EndOf(k + 1, Submit(w1, tx, attempts(k)), tx, attempts, reverted || attempts(k).submission.Mined?)
  }

  /** Exactly when the loop raises, and exactly which status each ending leaves. */
  lemma {:induction false} StatusExactly(k: nat, w: World, tx: Tx, columns: ChainColumns, required: bool,
                                         attempts: nat -> Attempt, reverted: bool)
    requires k < MAX_RETRIES && columns.status == (if reverted then FAILED else LOCAL_ONLY)
    ensures var r := Retry(k, w, tx, columns, required, attempts);
            var end := EndOf(k, w, tx, attempts, reverted);
            && (r.raised <==> required && end == Exhausted)
            && r.columns.status == match end {
                 case ByCheck(true) => FAILED
                 case ByCheck(false) => LOCAL_ONLY
                 case BySuccess => CONFIRMED
                 case Exhausted => FAILED
               }
    decreases MAX_RETRIES - k
  {
    var attempt := attempts(k);
    var w1 := w.MineLate(attempt.beforeCheck);
    if !AlreadyAnchored(w1, tx, attempt) && !Succeeds(w1, tx, attempt) && k + 1 < MAX_RETRIES {
      StatusExactly(k + 1, Submit(w1, tx, attempt), tx, AfterFailure(k, attempt, columns), required, attempts,
                    reverted || attempt.submission.Mined?);
    }
  }

  function EndOfAppend(lib: Library, l: Ledger, request: Request, env: Environment): Ending {
    EndOf(0, l.world, AnchorTx(NewBlock(lib, l.blocks, request)), env.attempts, false)
  }

  /** With anchoring required, a row that append_block returned normally for is marked CONFIRMED
      exactly when no idempotency check left the loop; otherwise it is marked FAILED if an attempt
      before that check was mined and reverted, and LOCAL_ONLY if none was. */
  lemma NormalReturnStatus(lib: Library, l: Ledger, request: Request, env: Environment)
    requires !Append(lib, Settings(true, true), l, request, env).raised
    ensures var b := Append(lib, Settings(true, true), l, request, env).ledger.blocks[|l.blocks|];
            var end := EndOfAppend(lib, l, request, env);
            && env.connected && env.deployed && end != Exhausted
            && (b.chain.status == CONFIRMED <==> !end.ByCheck?)
            && (b.chain.status == FAILED <==> end == ByCheck(true))
            && (b.chain.status == LOCAL_ONLY <==> end == ByCheck(false))
  {
    var b := NewBlock(lib, l.blocks, request);
    StatusExactly(0, l.world, AnchorTx(b), b.chain, true, env.attempts, false);
  }

  /** The status column does under-report: an environment in which append_block returns
      normally with the row anchored but marked FAILED, because the check found the
      first, late-mined transaction and left the loop. */
  lemma AnchoredButFailed(lib: Library, request: Request, receipt: ChainColumns) returns (env: Environment)
    ensures var r := Append(lib, Settings(true, true), Ledger([], NEW_CONTRACT), request, env);
            && !r.raised && r.ledger.blocks[0].chain.status == FAILED
            && HoldsAnchor(r.ledger.world, r.ledger.blocks[0])
  {
    var b := NewBlock(lib, [], request);
    var tx := AnchorTx(b);
    var first := Attempt([], true, TimedOut, []);
    var second := Attempt([], true, Mined(true, receipt), [tx]);
    env := Environment(true, true, k => if k == 0 then first else second);
    var w0 := NEW_CONTRACT;
    var w1 := Submit(w0, tx, first);
    assert w1 == World(map[], [], {tx}, {});
    assert [tx][1..] == [];
    assert w1.MineLate([tx]) == w1.Execute(tx).MineLate([]);
    assert w1.MineLate([tx]) == World(map[tx.id := tx.anchor], [tx.id], {tx}, {});
    assert w1.(broadcast := w1.broadcast + {tx}) == w1.MineLate(second.beforeCheck) == w1;
    assert !Succeeds(w1, tx, second);
    var w2 := Submit(w1, tx, second);
    var failed := b.chain.(status := FAILED);
    var w3 := w2.MineLate(second.beforeCheck);
    assert AlreadyAnchored(w3, tx, second);
    assert Retry(2, w2, tx, failed, true, env.attempts) == Anchored(w3, failed, false);
    assert Retry(1, w1, tx, b.chain, true, env.attempts) == Anchored(w3, failed, false);
    assert Retry(0, w0, tx, b.chain, true, env.attempts) == Anchored(w3, failed, false);
  }

  // ---- Whose anchor it is ----

  /** With anchoring required, returning normally means anchored with the row's own hash. */
  ghost predicate OwnAnchor(lib: Library, l: Ledger, request: Request, env: Environment) {
    var r := Append(lib, Settings(true, true), l, request, env);
    !r.raised ==> HoldsAnchor(r.ledger.world, r.ledger.blocks[|l.blocks|])
  }

  /** Somebody else has filled the slot, or may still fill it, with another anchor. */
  predicate Contested(w: World, tx: Tx) {
    if tx.id in w.anchors then w.anchors[tx.id] != tx.anchor
    else exists other <- w.others :: other.id == tx.id && other.anchor != tx.anchor
  }

  lemma UncontestedIsOwn(lib: Library, l: Ledger, request: Request, env: Environment)
    requires Inv(lib, l) && !Contested(l.world, AnchorTx(NewBlock(lib, l.blocks, request)))
    ensures OwnAnchor(lib, l, request, env)
  {
    var settings := Settings(true, true);
    var r := Append(lib, settings, l, request, env);
    AppendOk(lib, settings, l, request, env);
    var b := r.ledger.blocks[|l.blocks|];
    var tx := AnchorTx(NewBlock(lib, l.blocks, request));
    assert AnchorTx(b) == tx;
    if !r.raised && ForeignAt(r.ledger.world, b.id) && b.id !in l.world.anchors {
      var other := Tx(b.id, r.ledger.world.anchors[b.id]);
      assert other in l.world.others;
    }
  }

  lemma ContestedIsForeign(lib: Library, l: Ledger, request: Request) returns (env: Environment)
    requires Inv(lib, l) && Contested(l.world, AnchorTx(NewBlock(lib, l.blocks, request)))
    ensures !OwnAnchor(lib, l, request, env)
  {
    var b := NewBlock(lib, l.blocks, request);
    var tx := AnchorTx(b);
    var mined: seq<Tx> := [];
    if tx.id in l.world.anchors {
      Nonempty(l.world, l.blocks, Tx(tx.id, l.world.anchors[tx.id]));
    } else {
      var other :| other in l.world.others && other.id == tx.id && other.anchor != tx.anchor;
      mined := [other];
      assert [other][1..] == [];
      assert l.world.MineLate([other]) == l.world.Execute(other).MineLate([]);
    }
    env := Environment(true, true, k => Attempt(mined, true, NotSent, []));
    var w1 := l.world.MineLate(mined);
    assert AlreadyAnchored(w1, tx, env.attempts(0));
    assert Retry(0, l.world, tx, b.chain, true, env.attempts) == Anchored(w1, b.chain, false);
  }

  /** Required anchoring guarantees the row's own anchor in every environment exactly when nobody
      else's call of the public method competes for the slot. */
  lemma OwnAnchorExactly(lib: Library, l: Ledger, request: Request)
    requires Inv(lib, l)
    ensures (forall env {:trigger OwnAnchor(lib, l, request, env)} :: OwnAnchor(lib, l, request, env))
       <==> !Contested(l.world, AnchorTx(NewBlock(lib, l.blocks, request)))
  {
    if Contested(l.world, AnchorTx(NewBlock(lib, l.blocks, request))) {
      var env := ContestedIsForeign(lib, l, request);
    } else {
      forall env ensures OwnAnchor(lib, l, request, env) {
        UncontestedIsOwn(lib, l, request, env);
      }
    }
  }

  // ---- Anchors and the verifier ----

  /** The view of a verifier that reads this contract. */
  ghost predicate Reads(view: View, w: World) {
    && view.enabled && view.connected && view.deployed
    && forall id :: view.anchors(id) == EventHash(w.EventHashAt(id))
  }

  /** An anchor pins history. The table was rewritten in any way at all; if it verifies against the contract and
      its row j is CONFIRMED under an id whose slot the service filled, then its first j + 1 rows record exactly
      what the original ledger's first `id` rows do, id being the row's own id, or the two tables hold a
      collision or a zero digest. */
  lemma AnchorPinsHistory(lib: Library, settings: Settings, start: World, events: seq<Event>, view: View,
                          table: seq<Block>, j: nat)
    returns (e: Evidence)
    requires WorldOk(start, []) && lib.Lawful() && Reads(view, Run(lib, settings, start, events).world)
    requires IsChain(lib, table) && AnchorsAgree(view, table)
    requires j < |table| && table[j].chain.status == CONFIRMED
        && !ForeignAt(Run(lib, settings, start, events).world, table[j].id)
    ensures var original := Run(lib, settings, start, events).blocks;
            table[j].id <= |original| && Supports(lib, original, table[j].id, table, j + 1, e)
  {
    EveryRun(lib, settings, start, events);
    e := AnchorPinsRows(lib, Run(lib, settings, start, events), view, table, j);
  }

  lemma AnchorPinsRows(lib: Library, original: Ledger, view: View, table: seq<Block>, j: nat) returns (e: Evidence)
    requires lib.Lawful() && Inv(lib, original) && Reads(view, original.world)
    requires IsChain(lib, table) && AnchorsAgree(view, table)
    requires j < |table| && table[j].chain.status == CONFIRMED && !ForeignAt(original.world, table[j].id)
    ensures table[j].id <= |original.blocks| && Supports(lib, original.blocks, table[j].id, table, j + 1, e)
  {
    var id := table[j].id;
    assert AnchorAgrees(view, table[j]);
    AnchoredOk(original.world, id, original.blocks);
    assert Before(original.blocks, id) == Before(table, j + 1);
    e := TamperEvidence(lib, original.blocks, id, table, j + 1);
  }

  /** Conversely an untouched ledger verifies, anchors included, once the verifier
      reads the contract and the receipts of confirmed rows are successful. */
  lemma UntouchedVerifies(lib: Library, settings: Settings, start: World, events: seq<Event>, view: View)
    requires WorldOk(start, []) && Reads(view, Run(lib, settings, start, events).world)
    requires forall e <- events :: !e.UpdateEvent?
    requires forall b <- Run(lib, settings, start, events).blocks ::
               b.chain.status == CONFIRMED && b.chain.transactionHash.Some? ==>
                   view.receipts(b.chain.transactionHash.value) == Receipt(1)
    ensures var l := Run(lib, settings, start, events);
            IsChain(lib, l.blocks) && AnchorsAgree(view, l.blocks)
  {
    EveryRun(lib, settings, start, events);
  }

  // ---- The service ----

  /** BlockchainService with the table and the contract it writes to. */
  class BlockchainService {
    const lib: Library
    const settings: Settings
    var blocks: seq<Block>
    var world: World

    function State(): Ledger
      reads this
    {
      Ledger(blocks, world)
    }

    constructor (lib: Library, settings: Settings, start: World)
      ensures this.lib == lib && this.settings == settings && State() == Ledger([], start)
    {
      this.lib, this.settings := lib, settings;
      blocks, world := [], start;
    }

    /** append_block; raised models the RuntimeError of required anchoring. */
    method AppendBlock(request: Request, env: Environment) returns (raised: bool)
      modifies this
      ensures State() == Append(lib, settings, old(State()), request, env).ledger
      ensures raised == Append(lib, settings, old(State()), request, env).raised
    {
      var block := NewBlock(lib, blocks, request);
      var row := |blocks|;
      blocks := blocks + [block];
      if !settings.enabled {
        return false;
      }
      if !env.connected || !env.deployed {
        return settings.required;
      }
      var tx := AnchorTx(block);
      var attempt := 0;
      var done := false;
      raised := false;
      ghost var result := Retry(0, world, tx, block.chain, settings.required, env.attempts);
      while attempt < MAX_RETRIES && !done
        invariant attempt <= MAX_RETRIES && row == |old(blocks)|
        invariant |blocks| == row + 1 && blocks[..row] == old(blocks) && blocks[row].(chain := block.chain) == block
        invariant !done ==> !raised && result == Retry(attempt, world, tx, blocks[row].chain, settings.required,
                                                       env.attempts)
        invariant done ==> result == Anchored(world, blocks[row].chain, raised)
        decreases MAX_RETRIES - attempt, !done
      {
        var now := env.attempts(attempt);
        world := world.MineLate(now.beforeCheck);
        if now.checkWorks && world.EventHashAt(tx.id) != "" {
          done := true;
        } else {
          var confirmed := Succeeds(world, tx, now);
          world := Submit(world, tx, now);
          var last := attempt == MAX_RETRIES - 1;
          if confirmed {
            blocks := blocks[row := blocks[row].(chain := now.submission.receipt.(status := CONFIRMED))];
            done := true;
          } else {
            if last || now.submission.Mined? {
              blocks := blocks[row := blocks[row].(chain := blocks[row].chain.(status := FAILED))];
            }
            if last && settings.required {
              raised := true;
              done := true;
            }
            attempt := attempt + 1;
          }
        }
      }
      assert blocks == old(blocks) + [blocks[row]];
    }

    /** An UPDATE statement: the hook raises unless only anchoring columns change. */
    method Update(row: nat, after: Block) returns (accepted: bool)
      requires row < |blocks|
      modifies this
      ensures State() == Step(lib, settings, old(State()), UpdateEvent(row, after))
      ensures accepted <==> OnlyAnchoring(old(blocks)[row], after)
    {
      accepted := ReceiveBeforeUpdate(blocks[row], after);
      if accepted {
        blocks := blocks[row := after];
      }
    }
  }
}
