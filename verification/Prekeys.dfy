// The one-time prekey pool under concurrency: any number of claim_prekey and
// get_and_delete_prekey calls and generations, interleaved at the granularity of
// their database statements. A claim reads an available row, then updates it only
// if it is still unconsumed, and tries three times. A retrieval reads a row and
// its private key, and deletes the row in a second statement.

module Prekeys {
  import opened Basics

  const LIFETIME: int := 30 * 24 * 3600
  const MAX_ATTEMPTS: nat := 3
  const BATCH: nat := 10

  /** A row of ecdh_prekeys; its prekey_id is its key in the table. */
  datatype Row = Row(
    user: string,
    publicPem: seq<byte>,
    privatePem: seq<byte>,
    consumed: bool,
    transfer: Option<string>,
    expiresAt: int)

  type Table = map<nat, Row>

  /** The filter of the claiming query. */
  predicate Available(row: Row, user: string, now: int) {
    row.user == user && !row.consumed && row.expiresAt > now
  }

  /** The filter of the retrieving query. */
  predicate ClaimedFor(row: Row, user: string, transfer: string) {
    row.user == user && row.transfer == Some(transfer)
  }

  function Consume(row: Row, transfer: string): Row {
    row.(consumed := true, transfer := Some(transfer))
  }

  // ---- Concurrent calls ----

  datatype Phase =
    | Reading
    | Generating
    | Holding(id: nat)
    | Returned(result: Option<nat>)

  /** A running claim_prekey. The last three fields record when the call and its
      latest read happened: the length of the claim log and the clock. */
  datatype Call = Call(receiver: string, transfer: string, attempt: nat, phase: Phase,
                       beganAt: int, begun: nat, seen: nat)

  /** A conditional update that changed a row. */
  datatype Claim = Claim(call: nat, id: nat, user: string, transfer: string)

  /** A running get_and_delete_prekey: it has read a row, or it has returned. */
  datatype Retrieval =
    | Selected(id: nat)
    | Done(result: Option<nat>)

  /** A private key handed out, and the retrieval that returned it. */
  datatype Release = Release(call: nat, id: nat)

  /** The table, the claiming and the retrieving calls, the clock, every prekey_id
      ever used, the log of successful claims and the log of private keys handed out. */
  datatype State = State(rows: Table, calls: map<nat, Call>, retrievals: map<nat, Retrieval>, now: int, used: set<nat>,
                         claims: seq<Claim>, released: seq<Release>)

  const INITIAL := State(map[], map[], map[], 0, {}, [], [])

  /** One atomic statement of some process. Choices the database or the random
      generator make are part of the action; an action that cannot happen in a
      state leaves it as it is. */
  datatype Action =
    | Tick(now: int)
    | Generate(user: string, keys: map<nat, (seq<byte>, seq<byte>)>)
    | Begin(call: nat, receiver: string, transfer: string)
    | Read(call: nat, pick: nat)
    | GenerateFor(call: nat, keys: map<nat, (seq<byte>, seq<byte>)>)
    | Update(call: nat)
    | Retrieve(call: nat, user: string, transfer: string, pick: nat)
    | Remove(call: nat)

  function AddKeys(s: State, user: string, keys: map<nat, (seq<byte>, seq<byte>)>): State {
    s.(rows := s.rows + map id <- keys :: Row(user, keys[id].0, keys[id].1, false, None, s.now + LIFETIME),
       used := s.used + keys.Keys)
  }

  predicate Fresh(s: State, keys: map<nat, (seq<byte>, seq<byte>)>) {
    keys.Keys !! s.used
  }

  ghost predicate NoneAvailable(s: State, user: string) {
    forall id <- s.rows :: !Available(s.rows[id], user, s.now)
  }

  /** The next attempt of a call, or its return when the attempts are used up. */
  function NextAttempt(call: Call): Call {
    if call.attempt + 1 < MAX_ATTEMPTS then call.(attempt := call.attempt + 1, phase := Reading)
    else call.(attempt := call.attempt + 1, phase := Returned(None))
  }

  ghost function Apply(s: State, a: Action): State {
    match a
    case Tick(now) => if s.now <= now then s.(now := now) else s
    case Generate(user, keys) => if Fresh(s, keys) then AddKeys(s, user, keys) else s
    case Begin(c, receiver, transfer) =>
      if c in s.calls then s
      else s.(calls := s.calls[c := Call(receiver, transfer, 0, Reading, s.now, |s.claims|, |s.claims|)])
    case Read(c, pick) =>
      if c !in s.calls || s.calls[c].phase != Reading then s
      else ReadStep(s, c, s.calls[c], pick)
    case GenerateFor(c, keys) =>
      if c !in s.calls || s.calls[c].phase != Generating || !Fresh(s, keys) || |keys| != BATCH then s
      else GenerateStep(s, c, s.calls[c], keys)
    case Update(c) =>
      if c !in s.calls || !s.calls[c].phase.Holding? then s
      else UpdateStep(s, c, s.calls[c])
    case Retrieve(c, user, transfer, pick) => if c in s.retrievals then s else RetrieveStep(s, c, user, transfer, pick)
    case Remove(c) =>
      if c !in s.retrievals || !s.retrievals[c].Selected? then s
      else RemoveStep(s, c, s.retrievals[c].id)
  }

  ghost predicate NoneClaimedFor(s: State, user: string, transfer: string) {
    forall id <- s.rows :: !ClaimedFor(s.rows[id], user, transfer)
  }

  /** The retrieving query: some row claimed for the transfer, or None when there is none. */
  ghost function RetrieveStep(s: State, c: nat, user: string, transfer: string, pick: nat): State {
    if pick in s.rows && ClaimedFor(s.rows[pick], user, transfer) then
      s.(retrievals := s.retrievals[c := Selected(pick)])
    else if NoneClaimedFor(s, user, transfer) then s.(retrievals := s.retrievals[c := Done(None)])
    else s
  }

  /** The delete, which goes through whether or not the row is still there, and the return of
      the key that was read. */
  function RemoveStep(s: State, c: nat, id: nat): State {
    s.(rows := s.rows - {id}, retrievals := s.retrievals[c := Done(Some(id))],
       released := s.released + [Release(c, id)])
  }

  /** The query's first(): some available row, or none when there is none. */
  ghost function ReadStep(s: State, c: nat, call: Call, pick: nat): State {
    if pick in s.rows && Available(s.rows[pick], call.receiver, s.now) then
      s.(calls := s.calls[c := call.(phase := Holding(pick), seen := |s.claims|)])
    else if NoneAvailable(s, call.receiver) then s.(calls := s.calls[c := call.(phase := Generating)])
    else s
  }

  /** Ten keys for the receiver, after which the call tries again. */
  function GenerateStep(s: State, c: nat, call: Call, keys: map<nat, (seq<byte>, seq<byte>)>): State {
    AddKeys(s, call.receiver, keys).(calls := s.calls[c := NextAttempt(call)])
  }

  predicate UpdateMatches(s: State, call: Call)
    requires call.phase.Holding?
  {
    call.phase.id in s.rows && !s.rows[call.phase.id].consumed
  }

  function UpdateStep(s: State, c: nat, call: Call): State
    requires call.phase.Holding?
  {
    var id := call.phase.id;
    if UpdateMatches(s, call) then
      s.(rows := s.rows[id := Consume(s.rows[id], call.transfer)],
         calls := s.calls[c := call.(phase := Returned(Some(id)))],
         claims := s.claims + [Claim(c, id, call.receiver, call.transfer)])
    else s.(calls := s.calls[c := NextAttempt(call)])
  }

  ghost function Run(actions: seq<Action>): State {
    if actions == [] then INITIAL else Apply(Run(actions[..|actions| - 1]), actions[|actions| - 1])
  }

  // ---- Invariant ----

  ghost predicate LogsOk(s: State) {
    && (forall i, j :: 0 <= i < j < |s.claims| ==> s.claims[i].id != s.claims[j].id)
    && (forall i :: 0 <= i < |s.claims| ==> s.claims[i].id in s.used)
  }

  ghost predicate ReleasedTo(s: State, c: nat, id: nat) {
    exists k :: 0 <= k < |s.released| && s.released[k] == Release(c, id)
  }

  ghost predicate RetrievalOk(s: State, c: nat, r: Retrieval) {
    && (r.Selected? ==> IsClaimed(s, r.id))
    && (r.Done? && r.result.Some? ==> ReleasedTo(s, c, r.result.value))
  }

  ghost predicate ReleaseOk(s: State, k: nat)
    requires k < |s.released|
  {
    var r := s.released[k];
    && r.call in s.retrievals && s.retrievals[r.call] == Done(Some(r.id))
    && r.id in s.used && r.id !in s.rows && IsClaimed(s, r.id)
  }

  /** Every key handed out is the answer of one retrieval, and the other way round. */
  ghost predicate RetrievalsOk(s: State) {
    && (forall c <- s.retrievals :: RetrievalOk(s, c, s.retrievals[c]))
    && (forall k {:trigger ReleaseOk(s, k)} :: 0 <= k < |s.released| ==> ReleaseOk(s, k))
    && (forall k, l :: 0 <= k < l < |s.released| ==> s.released[k].call != s.released[l].call)
  }

  ghost predicate RowsOk(s: State) {
    && s.rows.Keys <= s.used
    && (forall id <- s.rows :: s.rows[id].consumed <==> s.rows[id].transfer.Some?)
    && (forall id <- s.rows :: s.rows[id].consumed ==> IsClaimed(s, id))
    && (forall i :: 0 <= i < |s.claims| && s.claims[i].id in s.rows ==>
          var row := s.rows[s.claims[i].id];
          row.consumed && row.transfer == Some(s.claims[i].transfer) && row.user == s.claims[i].user)
  }

  /** Since position `from` of the log, another call claimed a key of this user. */
  ghost predicate ClaimedSince(s: State, c: nat, user: string, from: nat) {
    exists i :: from <= i < |s.claims| && s.claims[i].user == user && s.claims[i].call != c
  }

  /** Another call claimed this very key since position `from`. */
  ghost predicate LostSince(s: State, c: nat, id: nat, user: string, from: nat) {
    exists i :: from <= i < |s.claims| && s.claims[i].id == id && s.claims[i].user == user && s.claims[i].call != c
  }

  ghost predicate TakenSince(s: State, id: nat, user: string, from: nat) {
    exists i :: from <= i < |s.claims| && s.claims[i].id == id && s.claims[i].user == user
  }

  ghost predicate Reserve(s: State, call: Call) {
    exists id <- s.rows :: s.rows[id].user == call.receiver && !s.rows[id].consumed
                           && s.rows[id].expiresAt >= call.beganAt + 30 * 24 * 3600
  }

  /** Others took keys of the receiver during the call, or it ran for thirty days. */
  ghost predicate Deprived(s: State, c: nat, call: Call) {
    ClaimedSince(s, c, call.receiver, call.begun) || s.now >= call.beganAt + 30 * 24 * 3600
  }

  /** After its first attempt a call has a key waiting for it, or lost keys to
      others, or has been running for thirty days. */
  ghost predicate Supplied(s: State, c: nat, call: Call) {
    Reserve(s, call) || Deprived(s, c, call)
  }

  ghost predicate CallOk(s: State, c: nat, call: Call) {
    && call.begun <= |s.claims| && call.begun <= call.seen <= |s.claims| && call.beganAt <= s.now
    && (call.phase.Holding? ==>
          || (call.phase.id in s.rows && !s.rows[call.phase.id].consumed && s.rows[call.phase.id].user == call.receiver)
          || LostSince(s, c, call.phase.id, call.receiver, call.seen))
    && (call.phase == Reading && call.attempt >= 1 ==> Supplied(s, c, call))
    && (call.attempt >= 2 || (call.phase == Generating && call.attempt >= 1) || call.phase == Returned(None) ==>
        Deprived(s, c, call))
    && (call.phase == Returned(None) <==> call.attempt == MAX_ATTEMPTS)
    && call.attempt <= MAX_ATTEMPTS
  }

  predicate Answered(call: Call, id: nat) {
    call.phase == Returned(Some(id))
  }

  /** Every logged claim is the answer of its call, and the other way round. */
  ghost predicate AnswersOk(s: State) {
    && (forall i :: 0 <= i < |s.claims| ==>
          var claim := s.claims[i];
          && claim.call in s.calls && Answered(s.calls[claim.call], claim.id)
          && s.calls[claim.call].receiver == claim.user && s.calls[claim.call].transfer == claim.transfer)
    && (forall c <- s.calls :: s.calls[c].phase.Returned? && s.calls[c].phase.result.Some? ==> HasClaim(s, c))
  }

  ghost predicate HasClaim(s: State, c: nat) {
    exists i :: 0 <= i < |s.claims| && s.claims[i].call == c
  }

  ghost predicate IsClaimed(s: State, id: nat) {
    exists i :: 0 <= i < |s.claims| && s.claims[i].id == id
  }

  ghost predicate CallsOk(s: State) {
    forall c <- s.calls :: CallOk(s, c, s.calls[c])
  }

  ghost predicate Inv(s: State) {
    LogsOk(s) && RowsOk(s) && AnswersOk(s) && CallsOk(s) && RetrievalsOk(s)
  }

  // ---- The invariant is inductive ----

  /** An unconsumed row stays as it is or is taken by a logged claim. */
  ghost predicate Kept(s: State, s': State, id: nat)
    requires id in s.rows
  {
    id in s'.rows && (s'.rows[id] == s.rows[id] || TakenSince(s', id, s.rows[id].user, |s.claims|))
  }

  /** What a step that changes at most call c0 does to everybody else's facts. */
  ghost predicate Evolves(s: State, s': State, c0: nat) {
    && s.claims <= s'.claims && s.now <= s'.now
    && (forall c <- s.calls :: c != c0 ==> c in s'.calls && s'.calls[c] == s.calls[c])
    && (forall c <- s'.calls :: c != c0 ==> c in s.calls)
    && (forall id <- s.rows :: !s.rows[id].consumed ==> Kept(s, s', id))
    && (forall i :: |s.claims| <= i < |s'.claims| ==> s'.claims[i].call == c0)
  }

  lemma OthersStayOk(s: State, s': State, c0: nat, c: nat)
    requires Evolves(s, s', c0) && c in s.calls && c != c0 && CallOk(s, c, s.calls[c])
    ensures CallOk(s', c, s'.calls[c])
  {
    var call := s.calls[c];
    if ClaimedSince(s, c, call.receiver, call.begun) {
      var i :| call.begun <= i < |s.claims| && s.claims[i].user == call.receiver && s.claims[i].call != c;
      assert s'.claims[i] == s.claims[i];
    }
    if Reserve(s, call) {
      var id :| id in s.rows && s.rows[id].user == call.receiver && !s.rows[id].consumed
                && s.rows[id].expiresAt >= call.beganAt + LIFETIME;
      if s'.rows[id] != s.rows[id] {
        var i :| |s.claims| <= i < |s'.claims| && s'.claims[i].id == id && s'.claims[i].user == call.receiver;
        assert ClaimedSince(s', c, call.receiver, call.begun);
      }
    }
    if call.phase.Holding? {
      var id := call.phase.id;
      if LostSince(s, c, id, call.receiver, call.seen) {
        var i :| call.seen <= i < |s.claims| && s.claims[i].id == id && s.claims[i].user == call.receiver
            && s.claims[i].call != c;
        assert s'.claims[i] == s.claims[i];
      } else if s'.rows[id] != s.rows[id] {
        var i :| |s.claims| <= i < |s'.claims| && s'.claims[i].id == id && s'.claims[i].user == call.receiver;
        assert s'.claims[i].call == c0;
      }
    }
  }

  lemma OthersOk(s: State, s': State, c0: nat)
    requires CallsOk(s) && Evolves(s, s', c0)
    ensures forall c <- s'.calls :: c != c0 ==> CallOk(s', c, s'.calls[c])
  {
    forall c | c in s'.calls && c != c0 ensures CallOk(s', c, s'.calls[c]) {
      OthersStayOk(s, s', c0, c);
    }
  }

  lemma ReadCall(s: State, c: nat, pick: nat)
    requires Inv(s) && c in s.calls && s.calls[c].phase == Reading
    ensures var s' := ReadStep(s, c, s.calls[c], pick); CallOk(s', c, s'.calls[c])
  {
    var call := s.calls[c];
    var s' := ReadStep(s, c, call, pick);
    assert CallOk(s, c, call);
    if s'.calls[c].phase == Generating && call.attempt >= 1 && Reserve(s, call) {
      var id :| id in s.rows && s.rows[id].user == call.receiver && !s.rows[id].consumed
                && s.rows[id].expiresAt >= call.beganAt + LIFETIME;
      assert !Available(s.rows[id], call.receiver, s.now);
    }
  }

  lemma GenerateCall(s: State, c: nat, keys: map<nat, (seq<byte>, seq<byte>)>)
    requires Inv(s) && c in s.calls && s.calls[c].phase == Generating && Fresh(s, keys) && |keys| == BATCH
    ensures var s' := GenerateStep(s, c, s.calls[c], keys); CallOk(s', c, s'.calls[c])
  {
    var call := s.calls[c];
    var s' := GenerateStep(s, c, call, keys);
    assert CallOk(s, c, call);
    assert keys.Keys != {};
    var id :| id in keys;
    assert id in s'.rows && s'.rows[id].user == call.receiver && s'.rows[id].expiresAt == s.now + LIFETIME;
    assert Reserve(s', s'.calls[c]);
  }

  lemma UpdateCall(s: State, c: nat)
    requires Inv(s) && c in s.calls && s.calls[c].phase.Holding?
    ensures var s' := UpdateStep(s, c, s.calls[c]); CallOk(s', c, s'.calls[c])
  {
    var call := s.calls[c];
    assert CallOk(s, c, call);
    if !UpdateMatches(s, call) {
      FailedUpdate(s, c);
      var s' := UpdateStep(s, c, call);
      assert ClaimedSince(s', c, call.receiver, call.begun);
    } else if call.attempt >= 2 {
      ClaimedStays(s, UpdateStep(s, c, call), c, call);
    }
  }

  lemma ClaimedStays(s: State, s': State, c: nat, call: Call)
    requires s.claims <= s'.claims && s.now <= s'.now && Deprived(s, c, call)
    ensures Deprived(s', c, call)
  {
    if ClaimedSince(s, c, call.receiver, call.begun) {
      var i :| call.begun <= i < |s.claims| && s.claims[i].user == call.receiver && s.claims[i].call != c;
      assert s'.claims[i] == s.claims[i];
    }
  }

  /** When the conditional update finds its row consumed or gone, another call
      claimed that very key after this call read it. */
  lemma FailedUpdate(s: State, c: nat)
    requires Inv(s) && c in s.calls && s.calls[c].phase.Holding? && !UpdateMatches(s, s.calls[c])
    ensures LostSince(s, c, s.calls[c].phase.id, s.calls[c].receiver, s.calls[c].seen)
    ensures ClaimedSince(s, c, s.calls[c].receiver, s.calls[c].begun)
  {
    var call := s.calls[c];
    assert CallOk(s, c, call);
    var i :| call.seen <= i < |s.claims| && s.claims[i].id == call.phase.id
             && s.claims[i].user == call.receiver && s.claims[i].call != c;
  }

  /** Steps that only rewrite call c, and not into an answer. */
  lemma CallOnly(s: State, c: nat, call: Call)
    requires Inv(s) && (c in s.calls ==> !HasClaim(s, c))
    requires !(call.phase.Returned? && call.phase.result.Some?)
    requires var s' := s.(calls := s.calls[c := call]); CallOk(s', c, call)
    ensures Inv(s.(calls := s.calls[c := call]))
  {
    var s' := s.(calls := s.calls[c := call]);
    forall id | id in s'.rows && s'.rows[id].consumed ensures IsClaimed(s', id) {
      assert IsClaimed(s, id);
    }
    forall d | d in s'.calls && s'.calls[d].phase.Returned? && s'.calls[d].phase.result.Some? ensures HasClaim(s', d) {
      assert HasClaim(s, d);
    }
    forall i | 0 <= i < |s'.claims| ensures Answered(s'.calls[s'.claims[i].call], s'.claims[i].id) {
      assert s.claims[i].call != c || HasClaim(s, c);
    }
    RetrievalsStay(s, s');
    OthersOk(s, s', c);
  }

  /** Steps of claims and generations leave the retrievals alone; a handed-out id stays gone. */
  lemma RetrievalsStay(s: State, s': State)
    requires RetrievalsOk(s) && s'.retrievals == s.retrievals && s'.released == s.released
    requires s.claims <= s'.claims && s.used <= s'.used
    requires forall id <- s'.rows :: id in s.rows || id !in s.used
    ensures RetrievalsOk(s')
  {
    forall c | c in s'.retrievals ensures RetrievalOk(s', c, s'.retrievals[c]) {
      var r := s.retrievals[c];
      assert RetrievalOk(s, c, r);
      if r.Selected? {
        ClaimedLater(s, s', r.id);
      } else if r.result.Some? {
        var k :| 0 <= k < |s.released| && s.released[k] == Release(c, r.result.value);
        assert s'.released[k] == s.released[k];
      }
    }
    forall k | 0 <= k < |s'.released| ensures ReleaseOk(s', k) {
      assert ReleaseOk(s, k);
      ClaimedLater(s, s', s.released[k].id);
    }
  }

  lemma ClaimedLater(s: State, s': State, id: nat)
    requires s.claims <= s'.claims && IsClaimed(s, id)
    ensures IsClaimed(s', id)
  {
    var i :| 0 <= i < |s.claims| && s.claims[i].id == id;
    assert s'.claims[i].id == id;
  }

  lemma Unanswered(s: State, c: nat)
    requires Inv(s) && c in s.calls && !s.calls[c].phase.Returned?
    ensures !HasClaim(s, c)
  {}

  lemma AddKeysOk(s: State, user: string, keys: map<nat, (seq<byte>, seq<byte>)>)
    requires Inv(s) && Fresh(s, keys)
    ensures Inv(AddKeys(s, user, keys))
  {
    var s' := AddKeys(s, user, keys);
    RetrievalsStay(s, s');
    forall id | id in s'.rows && s'.rows[id].consumed ensures IsClaimed(s', id) {
      assert IsClaimed(s, id);
    }
    forall d | d in s'.calls && s'.calls[d].phase.Returned? && s'.calls[d].phase.result.Some? ensures HasClaim(s', d) {
      assert HasClaim(s, d);
    }
    forall c | c in s.calls ensures CallOk(s', c, s.calls[c]) {
      OthersStayOk(s, s', c + 1, c);
    }
  }

  lemma TickOk(s: State, now: int)
    requires Inv(s) && s.now <= now
    ensures Inv(s.(now := now))
  {
    var s' := s.(now := now);
    RetrievalsStay(s, s');
    forall id | id in s'.rows && s'.rows[id].consumed ensures IsClaimed(s', id) {
      assert IsClaimed(s, id);
    }
    forall d | d in s'.calls && s'.calls[d].phase.Returned? && s'.calls[d].phase.result.Some? ensures HasClaim(s', d) {
      assert HasClaim(s, d);
    }
    forall c | c in s.calls ensures CallOk(s', c, s.calls[c]) {
      OthersStayOk(s, s', c + 1, c);
    }
  }

  lemma GenerateForOk(s: State, c: nat, keys: map<nat, (seq<byte>, seq<byte>)>)
    requires Inv(s) && c in s.calls && s.calls[c].phase == Generating && Fresh(s, keys) && |keys| == BATCH
    ensures Inv(GenerateStep(s, c, s.calls[c], keys))
  {
    AddKeysOk(s, s.calls[c].receiver, keys);
    Unanswered(s, c);
    var s' := AddKeys(s, s.calls[c].receiver, keys);
    assert !HasClaim(s', c);
    GenerateCall(s, c, keys);
    CallOnly(s', c, NextAttempt(s.calls[c]));
  }

  lemma UpdateOk(s: State, c: nat)
    requires Inv(s) && c in s.calls && s.calls[c].phase.Holding?
    ensures Inv(UpdateStep(s, c, s.calls[c]))
  {
    var call := s.calls[c];
    Unanswered(s, c);
    UpdateCall(s, c);
    if UpdateMatches(s, call) {
      ClaimOk(s, c);
    } else {
      CallOnly(s, c, NextAttempt(call));
    }
  }

  lemma ClaimOk(s: State, c: nat)
    requires Inv(s) && c in s.calls && s.calls[c].phase.Holding? && UpdateMatches(s, s.calls[c]) && !HasClaim(s, c)
    ensures Inv(UpdateStep(s, c, s.calls[c]))
  {
    var call := s.calls[c];
    var taken := call.phase.id;
    var s' := UpdateStep(s, c, call);
    var n := |s.claims|;
    var claim := Claim(c, taken, call.receiver, call.transfer);
    assert CallOk(s, c, call);
    assert s'.claims == s.claims + [claim] && s'.claims[n] == claim;
    ClaimLogs(s, claim);
    ClaimRows(s, s', taken);
    ClaimAnswers(s, s', c);
    ClaimEvolves(s, s', c, claim);
    RetrievalsStay(s, s');
    UpdateCall(s, c);
    OthersOk(s, s', c);
  }

  lemma ClaimLogs(s: State, claim: Claim)
    requires LogsOk(s) && RowsOk(s) && claim.id in s.rows && !s.rows[claim.id].consumed
    ensures LogsOk(s.(claims := s.claims + [claim]))
    ensures forall i :: 0 <= i < |s.claims| ==> s.claims[i].id != claim.id
  {}

  lemma ClaimEvolves(s: State, s': State, c: nat, claim: Claim)
    requires claim.id in s.rows && s.rows[claim.id].user == claim.user && claim.call == c
    requires s'.claims == s.claims + [claim] && s'.now == s.now
    requires s'.rows == s.rows[claim.id := Consume(s.rows[claim.id], claim.transfer)]
    requires c in s.calls && s'.calls.Keys == s.calls.Keys
    requires forall d <- s.calls :: d != c ==> s'.calls[d] == s.calls[d]
    ensures Evolves(s, s', c)
  {
    assert s'.claims[|s.claims|] == claim;
    assert TakenSince(s', claim.id, claim.user, |s.claims|);
  }

  lemma ClaimRows(s: State, s': State, taken: nat)
    requires RowsOk(s) && taken in s.rows && |s'.claims| == |s.claims| + 1 && s.claims <= s'.claims
    requires var claim := s'.claims[|s.claims|];
             claim.id == taken && claim.user == s.rows[taken].user
                 && s'.rows == s.rows[taken := Consume(s.rows[taken], claim.transfer)]
    requires forall i :: 0 <= i < |s.claims| ==> s.claims[i].id != taken
    requires s'.used == s.used
    ensures RowsOk(s')
  {
    forall id | id in s'.rows && s'.rows[id].consumed ensures IsClaimed(s', id) {
      if id == taken {
        assert s'.claims[|s.claims|].id == id;
      } else {
        assert IsClaimed(s, id);
        var i :| 0 <= i < |s.claims| && s.claims[i].id == id;
        assert s'.claims[i].id == id;
      }
    }
  }

  lemma ClaimAnswers(s: State, s': State, c: nat)
    requires AnswersOk(s) && c in s.calls && !HasClaim(s, c) && |s'.claims| == |s.claims| + 1 && s.claims <= s'.claims
    requires var claim := s'.claims[|s.claims|];
             && claim == Claim(c, claim.id, s.calls[c].receiver, s.calls[c].transfer)
             && s'.calls == s.calls[c := s.calls[c].(phase := Returned(Some(claim.id)))]
    ensures AnswersOk(s')
  {
    forall d | d in s'.calls && s'.calls[d].phase.Returned? && s'.calls[d].phase.result.Some? ensures HasClaim(s', d) {
      if d == c {
        assert s'.claims[|s.claims|].call == d;
      } else {
        assert HasClaim(s, d);
        var i :| 0 <= i < |s.claims| && s.claims[i].call == d;
        assert s'.claims[i].call == d;
      }
    }
    forall i | 0 <= i < |s.claims| ensures s.claims[i].call != c {
      assert HasClaim(s, s.claims[i].call);
    }
  }

  lemma RetrieveOk(s: State, c: nat, user: string, transfer: string, pick: nat)
    requires Inv(s) && c !in s.retrievals
    ensures Inv(RetrieveStep(s, c, user, transfer, pick))
  {
    var s' := RetrieveStep(s, c, user, transfer, pick);
    RestStays(s, s');
    forall d | d in s'.retrievals ensures RetrievalOk(s', d, s'.retrievals[d]) {
      if d != c {
        assert RetrievalOk(s, d, s.retrievals[d]);
        RetrievalStays(s, s', d);
      } else if s'.retrievals[c].Selected? {
        assert IsClaimed(s, pick);
        ClaimedLater(s, s', pick);
      }
    }
    forall k | 0 <= k < |s'.released| ensures ReleaseOk(s', k) {
      assert ReleaseOk(s, k);
      ClaimedLater(s, s', s.released[k].id);
    }
  }

  lemma RetrievalStays(s: State, s': State, c: nat)
    requires c in s.retrievals && c in s'.retrievals && s'.retrievals[c] == s.retrievals[c]
    requires s.claims <= s'.claims && s.released <= s'.released && RetrievalOk(s, c, s.retrievals[c])
    ensures RetrievalOk(s', c, s'.retrievals[c])
  {
    var r := s.retrievals[c];
    if r.Selected? {
      ClaimedLater(s, s', r.id);
    } else if r.result.Some? {
      var k :| 0 <= k < |s.released| && s.released[k] == Release(c, r.result.value);
      assert s'.released[k] == s.released[k];
    }
  }

  /** A retrieval's statements change no claiming call and remove at most claimed rows. */
  lemma RestStays(s: State, s': State)
    requires Inv(s) && s'.calls == s.calls && s'.claims == s.claims && s'.now == s.now && s'.used == s.used
    requires s'.rows.Keys <= s.rows.Keys && forall id <- s'.rows :: s'.rows[id] == s.rows[id]
    requires forall id <- s.rows :: id in s'.rows || s.rows[id].consumed
    ensures LogsOk(s') && RowsOk(s') && AnswersOk(s') && CallsOk(s')
  {
    forall id | id in s'.rows && s'.rows[id].consumed ensures IsClaimed(s', id) {
      assert IsClaimed(s, id);
    }
    forall d | d in s'.calls && s'.calls[d].phase.Returned? && s'.calls[d].phase.result.Some? ensures HasClaim(s', d) {
      assert HasClaim(s, d);
    }
    forall c | c in s.calls ensures CallOk(s', c, s.calls[c]) {
      OthersStayOk(s, s', c + 1, c);
    }
  }

  lemma RemoveOk(s: State, c: nat)
    requires Inv(s) && c in s.retrievals && s.retrievals[c].Selected?
    ensures Inv(RemoveStep(s, c, s.retrievals[c].id))
  {
    var id := s.retrievals[c].id;
    assert RetrievalOk(s, c, s.retrievals[c]);
    var i :| 0 <= i < |s.claims| && s.claims[i].id == id;
    RestStays(s, RemoveStep(s, c, id));
    RemoveRetrievals(s, c);
  }

  lemma RemoveRetrievals(s: State, c: nat)
    requires RetrievalsOk(s) && LogsOk(s) && c in s.retrievals && s.retrievals[c].Selected?
    ensures RetrievalsOk(RemoveStep(s, c, s.retrievals[c].id))
  {
    var id := s.retrievals[c].id;
    var s' := RemoveStep(s, c, id);
    assert RetrievalOk(s, c, s.retrievals[c]);
    ClaimedLater(s, s', id);
    assert s'.released[|s.released|] == Release(c, id);
    forall d | d in s'.retrievals ensures RetrievalOk(s', d, s'.retrievals[d]) {
      if d != c {
        assert RetrievalOk(s, d, s.retrievals[d]);
        RetrievalStays(s, s', d);
      }
    }
    forall k | 0 <= k < |s'.released| ensures ReleaseOk(s', k) {
      if k < |s.released| {
        OldRelease(s, c, k);
      }
    }
    forall k, l | 0 <= k < l < |s'.released| ensures s'.released[k].call != s'.released[l].call {
      assert ReleaseOk(s, k);
    }
  }

  lemma OldRelease(s: State, c: nat, k: nat)
    requires c in s.retrievals && s.retrievals[c].Selected? && k < |s.released| && ReleaseOk(s, k)
    ensures ReleaseOk(RemoveStep(s, c, s.retrievals[c].id), k)
  {
    ClaimedLater(s, RemoveStep(s, c, s.retrievals[c].id), s.released[k].id);
  }

  lemma ReadOk(s: State, c: nat, pick: nat)
    requires Inv(s) && c in s.calls && s.calls[c].phase == Reading
    ensures Inv(ReadStep(s, c, s.calls[c], pick))
  {
    ReadCall(s, c, pick);
    Unanswered(s, c);
    var s' := ReadStep(s, c, s.calls[c], pick);
    if s' != s {
      CallOnly(s, c, s'.calls[c]);
    }
  }

  lemma StepOk(s: State, a: Action)
    requires Inv(s)
    ensures Inv(Apply(s, a))
  {
    if Apply(s, a) != s {
      match a
      case Tick(now) => TickOk(s, now);
      case Generate(user, keys) => AddKeysOk(s, user, keys);
      case Begin(c, receiver, transfer) =>
        assert !HasClaim(s, c);
        CallOnly(s, c, Call(receiver, transfer, 0, Reading, s.now, |s.claims|, |s.claims|));
      case Read(c, pick) => ReadOk(s, c, pick);
      case GenerateFor(c, keys) => GenerateForOk(s, c, keys);
      case Update(c) => UpdateOk(s, c);
      case Retrieve(c, user, transfer, pick) => RetrieveOk(s, c, user, transfer, pick);
      case Remove(c) => RemoveOk(s, c);
    }
  }

  lemma {:induction false} Reachable(actions: seq<Action>)
    ensures Inv(Run(actions))
  {
    if actions != [] {
      var n := |actions| - 1;
      Reachable(actions[..n]);
      StepOk(Run(actions[..n]), actions[n]);
    }
  }

  // ---- Exclusivity ----

  /** In every reachable state no prekey was ever returned to two claims, every private key
      handed out had been claimed and is no longer stored, and each retrieval returned one key. */
  lemma Exclusive(actions: seq<Action>)
    ensures var s := Run(actions);
            && (forall c <- s.calls, d <- s.calls, id :: c != d && Answered(s.calls[c], id) ==>
                !Answered(s.calls[d], id))
            && (forall r <- s.released :: r.id !in s.rows && IsClaimed(s, r.id))
            && (forall k, l :: 0 <= k < l < |s.released| ==> s.released[k].call != s.released[l].call)
  {
    var s := Run(actions);
    Reachable(actions);
    forall c <- s.calls, d <- s.calls, id | c != d && Answered(s.calls[c], id)
      ensures !Answered(s.calls[d], id)
    {
      assert HasClaim(s, c);
      assert Answered(s.calls[d], id) ==> HasClaim(s, d);
    }
    forall r | r in s.released ensures r.id !in s.rows && IsClaimed(s, r.id) {
      var k :| 0 <= k < |s.released| && s.released[k] == r;
      assert ReleaseOk(s, k);
    }
  }

  // ---- Handing a key out ----

  predicate Holds(s: State, c: nat, id: nat) {
    c in s.retrievals && s.retrievals[c] == Selected(id)
  }

  /** After n actions two retrievals have both read the row of this key, and neither has deleted it. */
  ghost predicate BothHold(actions: seq<Action>, n: nat, c: nat, d: nat, id: nat)
    requires n <= |actions|
  {
    c != d && Holds(Run(actions[..n]), c, id) && Holds(Run(actions[..n]), d, id)
  }

  /** The second query of a key falls between the first query and its delete, and both deletes run. */
  ghost predicate Overlap(actions: seq<Action>, id: nat) {
    exists n, c, d {:trigger BothHold(actions, n, c, d, id)} ::
      0 <= n <= |actions| && BothHold(actions, n, c, d, id) && Remove(c) in actions[n..] && Remove(d) in actions[n..]
  }

  ghost predicate HandedOutTwice(s: State, id: nat) {
    exists k, l :: 0 <= k < l < |s.released| && s.released[k].id == id && s.released[l].id == id
  }

  /** What a read retrieval holds until its own delete, and what it then returns. */
  lemma {:induction false} HeldUntilRemoved(actions: seq<Action>, n: nat, c: nat, id: nat)
    requires n <= |actions| && Holds(Run(actions[..n]), c, id)
    ensures var s := Run(actions);
            if Remove(c) in actions[n..] then c in s.retrievals && s.retrievals[c] == Done(Some(id))
                else Holds(s, c, id)
  {
    if n == |actions| {
      assert actions[..n] == actions;
    } else {
      var m := |actions| - 1;
      assert actions[..m][..n] == actions[..n];
      assert actions[n..] == actions[..m][n..] + [actions[m]];
      HeldUntilRemoved(actions[..m], n, c, id);
      HeldStep(Run(actions[..m]), actions[m], c, id);
    }
  }

  lemma HeldStep(s: State, a: Action, c: nat, id: nat)
    requires c in s.retrievals && s.retrievals[c] in {Selected(id), Done(Some(id))}
    ensures c in Apply(s, a).retrievals
    ensures Apply(s, a).retrievals[c] == if a == Remove(c) && s.retrievals[c] == Selected(id) then Done(Some(id))
                                         else s.retrievals[c]
  {
    match a
    case Tick(_) =>
    case Generate(_, _) =>
    case Begin(_, _, _) =>
    case Read(_, _) =>
    case GenerateFor(_, _) =>
    case Update(_) =>
    case Retrieve(_, _, _, _) =>
    case Remove(_) =>
  }

  lemma BothHoldEarlier(actions: seq<Action>, m: nat, n: nat, c: nat, d: nat, id: nat)
    requires n <= m <= |actions| && BothHold(actions[..m], n, c, d, id)
    ensures BothHold(actions, n, c, d, id)
  {
    assert actions[..m][..n] == actions[..n];
  }

  /** Nobody reads a key that has been returned, so whoever holds it then held it before. */
  lemma HeldBefore(s: State, a: Action, c: nat, id: nat, k: nat)
    requires Inv(s) && Holds(Apply(s, a), c, id) && k < |s.released| && s.released[k].id == id
    ensures Holds(s, c, id)
  {
    assert ReleaseOk(s, k);
  }

  lemma NewRelease(s: State, a: Action, d: nat, id: nat, k: nat)
    requires |s.released| <= k < |Apply(s, a).released| && Apply(s, a).released[k] == Release(d, id)
    ensures a == Remove(d) && Holds(s, d, id) && k == |s.released|
    ensures forall c :: c != d && Holds(Apply(s, a), c, id) ==> Holds(s, c, id)
  {
    match a
    case Tick(_) =>
    case Generate(_, _) =>
    case Begin(_, _, _) =>
    case Read(_, _) =>
    case GenerateFor(_, _) =>
    case Update(_) =>
    case Retrieve(_, _, _, _) =>
    case Remove(_) =>
  }

  lemma ReleasedGrow(s: State, a: Action)
    ensures s.released <= Apply(s, a).released
  {
    match a
    case Tick(_) =>
    case Generate(_, _) =>
    case Begin(_, _, _) =>
    case Read(_, _) =>
    case GenerateFor(_, _) =>
    case Update(_) =>
    case Retrieve(_, _, _, _) =>
    case Remove(_) =>
  }

  /** A retrieval that still holds a key another one has returned read it before that one's delete. */
  lemma {:induction false} HeldTogether(actions: seq<Action>, c: nat, d: nat, id: nat, k: nat) returns (n: nat)
    requires Holds(Run(actions), c, id) && c != d
    requires k < |Run(actions).released| && Run(actions).released[k] == Release(d, id)
    ensures n < |actions| && BothHold(actions, n, c, d, id)
  {
    var m := |actions| - 1;
    var s := Run(actions[..m]);
    Reachable(actions[..m]);
    ReleasedGrow(s, actions[m]);
    if k < |s.released| {
      HeldBefore(s, actions[m], c, id, k);
      n := HeldTogether(actions[..m], c, d, id, k);
      BothHoldEarlier(actions, m, n, c, d, id);
    } else {
      NewRelease(s, actions[m], d, id, k);
      n := m;
    }
  }

  lemma {:induction false} TwiceMeansOverlap(actions: seq<Action>, k: nat, l: nat) returns (n: nat)
    requires k < l < |Run(actions).released| && Run(actions).released[k].id == Run(actions).released[l].id
    requires Run(actions).released[k].call != Run(actions).released[l].call
    ensures var s := Run(actions);
            n < |actions| && BothHold(actions, n, s.released[k].call, s.released[l].call, s.released[k].id)
  {
    var m := |actions| - 1;
    var s, s' := Run(actions[..m]), Run(actions);
    var first, second := s'.released[k], s'.released[l];
    ReleasedGrow(s, actions[m]);
    if l < |s.released| {
      n := TwiceMeansOverlap(actions[..m], k, l);
      BothHoldEarlier(actions, m, n, first.call, second.call, first.id);
    } else {
      NewRelease(s, actions[m], second.call, second.id, l);
      n := HeldTogether(actions[..m], second.call, first.call, first.id, k);
      BothHoldEarlier(actions, m, n, second.call, first.call, first.id);
    }
  }

  /** In every run a private key is handed out twice exactly when two retrievals of it overlap. */
  lemma TwiceExactly(actions: seq<Action>, id: nat)
    ensures HandedOutTwice(Run(actions), id) <==> Overlap(actions, id)
  {
    Reachable(actions);
    if HandedOutTwice(Run(actions), id) {
      TwiceOverlaps(actions, id);
    }
    if Overlap(actions, id) {
      OverlapTwice(actions, id);
    }
  }

  lemma TwiceOverlaps(actions: seq<Action>, id: nat)
    requires Inv(Run(actions)) && HandedOutTwice(Run(actions), id)
    ensures Overlap(actions, id)
  {
    var s := Run(actions);
    var k, l :| 0 <= k < l < |s.released| && s.released[k].id == id && s.released[l].id == id;
    var n := TwiceMeansOverlap(actions, k, l);
    var c, d := s.released[k].call, s.released[l].call;
    assert ReleaseOk(s, k) && ReleaseOk(s, l);
    HeldUntilRemoved(actions, n, c, id);
    HeldUntilRemoved(actions, n, d, id);
  }

  lemma OverlapTwice(actions: seq<Action>, id: nat)
    requires Inv(Run(actions)) && Overlap(actions, id)
    ensures HandedOutTwice(Run(actions), id)
  {
    var s := Run(actions);
    var n, c, d :| 0 <= n <= |actions| && BothHold(actions, n, c, d, id) && Remove(c) in actions[n..]
        && Remove(d) in actions[n..];
    HeldUntilRemoved(actions, n, c, id);
    HeldUntilRemoved(actions, n, d, id);
    assert RetrievalOk(s, c, s.retrievals[c]) && RetrievalOk(s, d, s.retrievals[d]);
    var k :| 0 <= k < |s.released| && s.released[k] == Release(c, id);
    var l :| 0 <= l < |s.released| && s.released[l] == Release(d, id);
    assert k < l || l < k;
  }

  /** The statements of two downloads of one transfer that run side by side. */
  function SideBySide(c: nat, d: nat, user: string, transfer: string, id: nat): seq<Action> {
    [Retrieve(c, user, transfer, id), Retrieve(d, user, transfer, id), Remove(c), Remove(d)]
  }

  lemma RunAppend(actions: seq<Action>, a: Action)
    ensures Run(actions + [a]) == Apply(Run(actions), a)
  {
    assert (actions + [a])[..|actions|] == actions;
  }

  /** Whatever happened before, a claimed key can be handed out twice. */
  lemma SideBySideTwice(actions: seq<Action>, c: nat, d: nat, user: string, transfer: string, id: nat)
    requires var s := Run(actions); id in s.rows && ClaimedFor(s.rows[id], user, transfer)
    requires c != d && c !in Run(actions).retrievals && d !in Run(actions).retrievals
    ensures Run(actions + SideBySide(c, d, user, transfer, id)).released ==
        Run(actions).released + [Release(c, id), Release(d, id)]
  {
    var r, q, x, y := Retrieve(c, user, transfer, id), Retrieve(d, user, transfer, id), Remove(c), Remove(d);
    RunAppend(actions, r);
    RunAppend(actions + [r], q);
    RunAppend(actions + [r] + [q], x);
    RunAppend(actions + [r] + [q] + [x], y);
    assert actions + SideBySide(c, d, user, transfer, id) == actions + [r] + [q] + [x] + [y];
    var s0, s1 := Run(actions + [r]), Run(actions + [r] + [q]);
    assert Holds(s0, c, id) && s0.rows == Run(actions).rows;
    assert Holds(s1, c, id) && Holds(s1, d, id);
    assert Run(actions + [r] + [q] + [x]) == RemoveStep(s1, c, id);
  }

  /** A run from the empty pool in which one upload's key reaches two downloads. */
  lemma TwoDownloads(user: string, transfer: string, pair: (seq<byte>, seq<byte>))
    ensures var upload := [Generate(user, map[0 := pair]), Begin(0, user, transfer), Read(0, 0), Update(0)];
            Run(upload + SideBySide(0, 1, user, transfer, 0)).released == [Release(0, 0), Release(1, 0)]
  {
    var g, b, r, u := Generate(user, map[0 := pair]), Begin(0, user, transfer), Read(0, 0), Update(0);
    var row := Row(user, pair.0, pair.1, false, None, LIFETIME);
    RunAppend([], g);
    RunAppend([] + [g], b);
    RunAppend([] + [g] + [b], r);
    RunAppend([] + [g] + [b] + [r], u);
    assert [g, b, r, u] == [] + [g] + [b] + [r] + [u];
    assert Run([] + [g]).rows == map[0 := row];
    assert Run([] + [g] + [b] + [r]).calls[0].phase == Holding(0);
    assert Run([g, b, r, u]).rows[0] == Consume(row, transfer);
    SideBySideTwice([g, b, r, u], 0, 1, user, transfer, 0);
  }

  /** The row of an id that is used, and unclaimed in no row, is the earlier one. */
  ghost predicate SameOrGone(s: State, s': State, id: nat) {
    && id in s'.used
    && (id in s'.rows ==> id in s.rows && s'.rows[id] == s.rows[id])
  }

  ghost predicate Settled(s: State, id: nat) {
    id in s.used && (id in s.rows ==> s.rows[id].consumed)
  }

  lemma SettledStays(s: State, a: Action, id: nat)
    requires Settled(s, id)
    ensures SameOrGone(s, Apply(s, a), id)
  {
    match a
    case Tick(_) =>
    case Generate(_, _) =>
    case Begin(_, _, _) =>
    case Read(_, _) =>
    case GenerateFor(c, keys) =>
    case Update(c) =>
    case Retrieve(_, _, _, _) =>
    case Remove(_) =>
  }

  /** A claimed row keeps every column for as long as it exists, and a key that
      left the table never comes back. */
  lemma {:induction false} ClaimedRowsFixed(actions: seq<Action>, n: nat, id: nat)
    requires n <= |actions| && Settled(Run(actions[..n]), id)
    ensures SameOrGone(Run(actions[..n]), Run(actions), id)
  {
    if n == |actions| {
      assert actions[..n] == actions;
    } else {
      var m := |actions| - 1;
      assert actions[..m][..n] == actions[..n];
      ClaimedRowsFixed(actions[..m], n, id);
      SettledStays(Run(actions[..m]), actions[m], id);
    }
  }

  /** The transfer that was answered with a key is the one its row names. */
  lemma AnswerBinds(actions: seq<Action>, c: nat)
    requires c in Run(actions).calls
    ensures var s := Run(actions);
            var call := s.calls[c];
            call.phase.Returned? && call.phase.result.Some? && call.phase.result.value in s.rows ==>
              var row := s.rows[call.phase.result.value];
              row.user == call.receiver && row.transfer == Some(call.transfer) && row.consumed
  {
    var s := Run(actions);
    Reachable(actions);
    var call := s.calls[c];
    if call.phase.Returned? && call.phase.result.Some? {
      var i :| 0 <= i < |s.claims| && s.claims[i].call == c;
    }
  }

  // ---- Expiry ----

  /** The key a call has picked or was answered with had not expired when the call began. */
  ghost predicate UnexpiredFor(s: State, call: Call) {
    && (call.phase.Holding? && call.phase.id in s.rows ==> s.rows[call.phase.id].expiresAt > call.beganAt)
    && (call.phase.Returned? && call.phase.result.Some? && call.phase.result.value in s.rows ==>
          s.rows[call.phase.result.value].expiresAt > call.beganAt)
  }

  ghost predicate Unexpired(s: State) {
    forall c <- s.calls :: UnexpiredFor(s, s.calls[c])
  }

  /** Expiry dates do not change, and no id that a call knows comes back. */
  lemma ExpiryKept(s: State, a: Action, id: nat)
    requires Inv(s) && id in Apply(s, a).rows && id in s.used
    ensures id in s.rows && Apply(s, a).rows[id].expiresAt == s.rows[id].expiresAt
  {
    match a
    case Tick(_) =>
    case Generate(_, _) =>
    case Begin(_, _, _) =>
    case Read(_, _) =>
    case GenerateFor(_, _) =>
    case Update(_) =>
    case Retrieve(_, _, _, _) =>
    case Remove(_) =>
  }

  lemma KnownIds(s: State, c: nat)
    requires Inv(s) && c in s.calls
    ensures s.calls[c].phase.Holding? ==> s.calls[c].phase.id in s.used
    ensures s.calls[c].phase.Returned? && s.calls[c].phase.result.Some? ==> s.calls[c].phase.result.value in s.used
  {
    assert CallOk(s, c, s.calls[c]);
    if s.calls[c].phase.Returned? && s.calls[c].phase.result.Some? {
      assert HasClaim(s, c);
    }
  }

  /** What one action makes of one call: nothing, or it picks an unexpired row, or it is answered with
      the row it had picked, or it is left with no row. */
  lemma CallMoves(s: State, a: Action, c: nat)
    requires Inv(s) && c in Apply(s, a).calls
    ensures var call' := Apply(s, a).calls[c];
            if c !in s.calls then call'.phase == Reading
            else
              var call := s.calls[c];
              && call'.beganAt == call.beganAt
              && (|| call' == call
                  || (call'.phase.Holding? && call'.phase.id in s.rows
                      && s.rows[call'.phase.id].expiresAt > call.beganAt)
                  || (call.phase.Holding? && call'.phase == Returned(Some(call.phase.id)))
                  || call'.phase in {Reading, Generating, Returned(None)})
  {
    if c in s.calls {
      assert CallOk(s, c, s.calls[c]);
    }
    match a
    case Tick(_) =>
    case Generate(_, _) =>
    case Begin(_, _, _) =>
    case Read(_, _) =>
    case GenerateFor(_, _) =>
    case Update(_) =>
    case Retrieve(_, _, _, _) =>
    case Remove(_) =>
  }

  lemma UnexpiredStep(s: State, a: Action)
    requires Inv(s) && Unexpired(s)
    ensures Unexpired(Apply(s, a))
  {
    var s' := Apply(s, a);
    forall c | c in s'.calls ensures UnexpiredFor(s', s'.calls[c]) {
      CallMoves(s, a, c);
      if c in s.calls {
        KnownIds(s, c);
        assert UnexpiredFor(s, s.calls[c]);
        var phase := s'.calls[c].phase;
        if phase.Holding? && phase.id in s'.rows {
          ExpiryKept(s, a, phase.id);
        } else if phase.Returned? && phase.result.Some? && phase.result.value in s'.rows {
          ExpiryKept(s, a, phase.result.value);
        }
      }
    }
  }

  /** In every run no call is answered with a key that had expired when the call began. */
  lemma {:induction false} NeverExpired(actions: seq<Action>)
    ensures Unexpired(Run(actions))
  {
    if actions != [] {
      var n := |actions| - 1;
      NeverExpired(actions[..n]);
      Reachable(actions[..n]);
      UnexpiredStep(Run(actions[..n]), actions[n]);
    }
  }

  // ---- Progress ----

  /** claim_prekey answers None only after other calls claimed keys of the same
      receiver while it ran, or when it ran for thirty days. */
  lemma NoneMeansContention(actions: seq<Action>, c: nat)
    requires c in Run(actions).calls && Run(actions).calls[c].phase == Returned(None)
    ensures Deprived(Run(actions), c, Run(actions).calls[c]) && Run(actions).calls[c].attempt == 3
  {
    Reachable(actions);
    assert CallOk(Run(actions), c, Run(actions).calls[c]);
  }

  /** A call that no other call for its receiver competes with holds a key by its
      second attempt: whatever it is doing then, its next statement succeeds. */
  lemma LoneClaimer(actions: seq<Action>, c: nat)
    requires c in Run(actions).calls && !Deprived(Run(actions), c, Run(actions).calls[c])
    ensures var s := Run(actions);
            var call := s.calls[c];
            && call.attempt <= 1
            && (call.attempt == 1 ==> call.phase != Generating)
            && (call.attempt == 1 && call.phase == Reading ==> !NoneAvailable(s, call.receiver))
            && (call.phase.Holding? ==> Apply(s, Update(c)).calls[c].phase == Returned(Some(call.phase.id)))
            && call.phase != Returned(None)
  {
    var s := Run(actions);
    Reachable(actions);
    var call := s.calls[c];
    assert CallOk(s, c, call);
    if call.phase.Holding? && !UpdateMatches(s, call) {
      FailedUpdate(s, c);
    }
    if call.attempt == 1 && call.phase == Reading {
      var id :| id in s.rows && s.rows[id].user == call.receiver && !s.rows[id].consumed
                && s.rows[id].expiresAt >= call.beganAt + LIFETIME;
      assert Available(s.rows[id], call.receiver, s.now);
    }
  }
}
