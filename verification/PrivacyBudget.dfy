// The privacy-budget accountant, twice: a Lua script over one flat Redis hash and a
// dictionary of the process, both against one ledger of charges. Amounts are in
// millionths of epsilon.

module PrivacyBudget {
  import opened Basics
  import opened Text

  const SCALE: real := 1000000.0

  /** int(x * 1_000_000), which truncates towards zero. */
  function Micro(x: real): int {
    if x >= 0.0 then (x * SCALE).Floor else -((-x * SCALE).Floor)
  }

  datatype Limits = Limits(max: int, reserved: int)

  datatype Class = Initial | Periodic

  datatype Call = Call(id: string, cost: int, cls: Class)

  /** The remaining budget, returned or reported with the exhaustion. */
  datatype Outcome = Granted(remaining: int) | Exhausted(remaining: int)

  /** What a call of this class may still spend. */
  function Spendable(l: Limits, cls: Class, consumed: int): int {
    if cls.Periodic? then l.max - consumed - l.reserved else l.max - consumed
  }

  // ---- The Lua script ----

  type Hash = map<string, int>

  function HGet(h: Hash, field: string): int {
    if field in h then h[field] else 0
  }

  function SeenField(id: string): string {
    "seen:" + id
  }

  /** The script's answer: 0 refused, 1 already charged, 2 charged. */
  datatype Answer = Answer(status: int, charged: int, consumed: int)

  function Script(h: Hash, c: Call, l: Limits): (Hash, Answer) {
    var consumed := HGet(h, "consumed");
    if SeenField(c.id) in h then (h, Answer(1, h[SeenField(c.id)], consumed))
    else if Spendable(l, c.cls, consumed) < c.cost then (h, Answer(0, 0, consumed))
    else (h["consumed" := consumed + c.cost]["count" := HGet(h, "count") + 1][SeenField(c.id) := c.cost],
          Answer(2, c.cost, consumed + c.cost))
  }

  /** What consume_budget makes of the answer. */
  function ScriptOutcome(a: Answer, l: Limits): Outcome {
    if a.status == 0 then Exhausted(l.max - a.consumed) else Granted(l.max - a.consumed)
  }

  function Consume(h: Hash, c: Call, l: Limits): (Hash, Outcome) {
    (Script(h, c, l).0, ScriptOutcome(Script(h, c, l).1, l))
  }

  // ---- The dictionary ----

  datatype Local = Local(consumed: int, seen: set<string>)

  function InMemory(b: Local, c: Call, l: Limits): (Local, Outcome) {
    if c.id in b.seen then (b, Granted(l.max - b.consumed))
    else if Spendable(l, c.cls, b.consumed) < c.cost then (b, Exhausted(l.max - b.consumed))
    else (Local(b.consumed + c.cost, b.seen + {c.id}), Granted(l.max - (b.consumed + c.cost)))
  }

  // ---- The ledger ----

  datatype Charge = Charge(id: string, cost: int)

  function Spent(charges: seq<Charge>): int {
    if charges == [] then 0 else Spent(charges[..|charges| - 1]) + charges[|charges| - 1].cost
  }

  predicate Charged(charges: seq<Charge>, id: string) {
    charges != [] && (charges[|charges| - 1].id == id || Charged(charges[..|charges| - 1], id))
  }

  /** A repeated id is free; a new one is charged when the class may still spend its cost. */
  function Post(charges: seq<Charge>, c: Call, l: Limits): (seq<Charge>, Outcome) {
    if Charged(charges, c.id) then (charges, Granted(l.max - Spent(charges)))
    else if Spendable(l, c.cls, Spent(charges)) < c.cost then (charges, Exhausted(l.max - Spent(charges)))
    else
      var charges' := charges + [Charge(c.id, c.cost)];
      (charges', Granted(l.max - Spent(charges')))
  }

  lemma SpentAppend(charges: seq<Charge>, c: Charge)
    ensures Spent(charges + [c]) == Spent(charges) + c.cost
  {
    assert (charges + [c])[..|charges|] == charges;
  }

  lemma ChargedAppend(charges: seq<Charge>, c: Charge, id: string)
    ensures Charged(charges + [c], id) <==> Charged(charges, id) || c.id == id
  {
    assert (charges + [c])[..|charges|] == charges;
  }

  // ---- Refinement ----

  lemma SeenFieldApart(id: string)
    ensures SeenField(id) != "consumed" && SeenField(id) != "count"
  {
    assert SeenField(id)[0] == 's';
  }

  lemma SeenFieldInjective(a: string, b: string)
    requires SeenField(a) == SeenField(b)
    ensures a == b
  {
    assert SeenField(a)[5..] == a && SeenField(b)[5..] == b;
  }

  ghost predicate HashSeen(h: Hash, charges: seq<Charge>, id: string) {
    SeenField(id) in h <==> Charged(charges, id)
  }

  /** The flat hash holds the ledger's total, its length and one field for each charged id. */
  ghost predicate HashIs(h: Hash, charges: seq<Charge>) {
    && HGet(h, "consumed") == Spent(charges) && HGet(h, "count") == |charges|
    && forall id {:trigger HashSeen(h, charges, id)} :: HashSeen(h, charges, id)
  }

  /** The dictionary holds the ledger's total and the set of charged ids. */
  ghost predicate LocalIs(b: Local, charges: seq<Charge>) {
    && b.consumed == Spent(charges) && |b.seen| == |charges|
    && forall id {:trigger id in b.seen} :: id in b.seen <==> Charged(charges, id)
  }

  lemma ScriptPosts(h: Hash, charges: seq<Charge>, c: Call, l: Limits)
    requires HashIs(h, charges)
    ensures HashIs(Consume(h, c, l).0, Post(charges, c, l).0)
    ensures Consume(h, c, l).1 == Post(charges, c, l).1
  {
    assert HashSeen(h, charges, c.id);
    SeenFieldApart(c.id);
    SpentAppend(charges, Charge(c.id, c.cost));
    var h', charges' := Consume(h, c, l).0, Post(charges, c, l).0;
    forall id ensures HashSeen(h', charges', id) {
      assert HashSeen(h, charges, id);
      SeenFieldApart(id);
      ChargedAppend(charges, Charge(c.id, c.cost), id);
      if SeenField(id) == SeenField(c.id) {
        SeenFieldInjective(id, c.id);
      }
    }
  }

  lemma LocalCharged(b: Local, charges: seq<Charge>, id: string, cost: int)
    requires LocalIs(b, charges) && !Charged(charges, id)
    ensures LocalIs(Local(b.consumed + cost, b.seen + {id}), charges + [Charge(id, cost)])
  {
    SpentAppend(charges, Charge(id, cost));
    var b', charges' := Local(b.consumed + cost, b.seen + {id}), charges + [Charge(id, cost)];
    assert id !in b.seen;
    forall other ensures other in b'.seen <==> Charged(charges', other) {
      ChargedAppend(charges, Charge(id, cost), other);
    }
  }

  lemma InMemoryPosts(b: Local, charges: seq<Charge>, c: Call, l: Limits)
    requires LocalIs(b, charges)
    ensures LocalIs(InMemory(b, c, l).0, Post(charges, c, l).0)
    ensures InMemory(b, c, l).1 == Post(charges, c, l).1
  {
    assert c.id in b.seen <==> Charged(charges, c.id);
    if c.id !in b.seen {
      LocalCharged(b, charges, c.id, c.cost);
    }
  }

  // ---- Every sequence of calls ----

  function HashAfter(calls: seq<Call>, l: Limits): Hash {
    if calls == [] then map[] else Consume(HashAfter(calls[..|calls| - 1], l), calls[|calls| - 1], l).0
  }

  function LocalAfter(calls: seq<Call>, l: Limits): Local {
    if calls == [] then Local(0, {}) else InMemory(LocalAfter(calls[..|calls| - 1], l), calls[|calls| - 1], l).0
  }

  function Ledger(calls: seq<Call>, l: Limits): seq<Charge> {
    if calls == [] then [] else Post(Ledger(calls[..|calls| - 1], l), calls[|calls| - 1], l).0
  }

  lemma {:induction false} HashRefines(calls: seq<Call>, l: Limits)
    ensures HashIs(HashAfter(calls, l), Ledger(calls, l))
  {
    if calls != [] {
      var n := |calls| - 1;
      HashRefines(calls[..n], l);
      ScriptPosts(HashAfter(calls[..n], l), Ledger(calls[..n], l), calls[n], l);
    } else {
      forall id ensures HashSeen(map[], [], id) {
      }
    }
  }

  lemma {:induction false} LocalRefines(calls: seq<Call>, l: Limits)
    ensures LocalIs(LocalAfter(calls, l), Ledger(calls, l))
  {
    if calls != [] {
      var n := |calls| - 1;
      LocalRefines(calls[..n], l);
      InMemoryPosts(LocalAfter(calls[..n], l), Ledger(calls[..n], l), calls[n], l);
    }
  }

  /** After any calls, the script and the dictionary accept or refuse the next one alike with the same
      remaining budget, and have counted the same total over the same number of distinct ids. */
  lemma SameAccountant(calls: seq<Call>, next: Call, l: Limits)
    ensures Consume(HashAfter(calls, l), next, l).1 == InMemory(LocalAfter(calls, l), next, l).1
    ensures HGet(HashAfter(calls, l), "consumed") == LocalAfter(calls, l).consumed
    ensures HGet(HashAfter(calls, l), "count") == |LocalAfter(calls, l).seen|
  {
    HashRefines(calls, l);
    LocalRefines(calls, l);
    ScriptPosts(HashAfter(calls, l), Ledger(calls, l), next, l);
    InMemoryPosts(LocalAfter(calls, l), Ledger(calls, l), next, l);
  }

  // ---- What the ledger keeps ----

  predicate Distinct(charges: seq<Charge>) {
    forall i, j :: 0 <= i < j < |charges| ==> charges[i].id != charges[j].id
  }

  lemma {:induction false} ChargedMeans(charges: seq<Charge>, id: string)
    ensures Charged(charges, id) <==> exists i :: 0 <= i < |charges| && charges[i].id == id
  {
    if charges != [] {
      var n := |charges| - 1;
      ChargedMeans(charges[..n], id);
      if Charged(charges[..n], id) {
        var i :| 0 <= i < n && charges[..n][i].id == id;
        assert charges[i].id == id;
      }
    }
  }

  /** consume_budget refuses an epsilon that is not positive, so no cost is negative. */
  predicate Costs(calls: seq<Call>) {
    forall i :: 0 <= i < |calls| ==> calls[i].cost >= 0
  }

  function Ceiling(l: Limits): int {
    Max(0, Max(l.max, l.max - l.reserved))
  }

  /** Ids are charged once, and the total stays under the ceiling. */
  lemma {:induction false} LedgerKeeps(calls: seq<Call>, l: Limits)
    requires Costs(calls)
    ensures Distinct(Ledger(calls, l))
    ensures 0 <= Spent(Ledger(calls, l)) <= Ceiling(l)
  {
    if calls != [] {
      var n := |calls| - 1;
      var before, c := Ledger(calls[..n], l), calls[n];
      LedgerKeeps(calls[..n], l);
      SpentAppend(before, Charge(c.id, c.cost));
      ChargedMeans(before, c.id);
    }
  }

  /** The flat hash after any calls: `consumed` is a sum of charges of distinct ids, `count` is their
      number, and the total is under the ceiling. The dictionary agrees by SameAccountant. */
  lemma HashKeeps(calls: seq<Call>, l: Limits)
    requires Costs(calls)
    ensures var h, charges := HashAfter(calls, l), Ledger(calls, l);
            && HGet(h, "consumed") == Spent(charges) <= Ceiling(l)
            && HGet(h, "count") == |charges| && Distinct(charges)
            && forall id :: SeenField(id) in h <==> Charged(charges, id)
  {
    HashRefines(calls, l);
    LedgerKeeps(calls, l);
    forall id ensures SeenField(id) in HashAfter(calls, l) <==> Charged(Ledger(calls, l), id) {
      assert HashSeen(HashAfter(calls, l), Ledger(calls, l), id);
    }
  }

  /** The total never exceeds the configured maximum exactly when the reserve is not negative, or
      the maximum less the reserve is not positive, so that nothing can be charged. */
  lemma MaximumHolds(l: Limits)
    ensures (forall calls :: Costs(calls) ==> Spent(Ledger(calls, l)) <= Max(0, l.max))
       <==> (l.reserved >= 0 || l.max - l.reserved <= 0)
  {
    if l.reserved >= 0 || l.max - l.reserved <= 0 {
      forall calls | Costs(calls) ensures Spent(Ledger(calls, l)) <= Max(0, l.max) {
        LedgerKeeps(calls, l);
      }
    } else {
      var c := Call("a", l.max - l.reserved, Periodic);
      OneCall(c, l);
      assert Costs([c]) && Spent(Ledger([c], l)) > Max(0, l.max);
    }
  }

  lemma OneCall(c: Call, l: Limits)
    requires Spendable(l, c.cls, 0) >= c.cost
    ensures Ledger([c], l) == [Charge(c.id, c.cost)]
    ensures Spent([Charge(c.id, c.cost)]) == c.cost
  {
    assert [c][..0] == [];
    SpentAppend([], Charge(c.id, c.cost));
    assert [] + [Charge(c.id, c.cost)] == [Charge(c.id, c.cost)];
  }

  lemma ChargedAfter(charges: seq<Charge>, c: Call, l: Limits, id: string)
    requires Charged(charges, id)
    ensures Charged(Post(charges, c, l).0, id)
  {
    ChargedAppend(charges, Charge(c.id, c.cost), id);
  }

  lemma {:induction false} ChargedStays(calls: seq<Call>, later: seq<Call>, l: Limits, id: string)
    requires Charged(Ledger(calls, l), id)
    ensures Charged(Ledger(calls + later, l), id)
  {
    if later == [] {
      assert calls + later == calls;
    } else {
      var n := |later| - 1;
      ChargedStays(calls, later[..n], l, id);
      assert (calls + later)[..|calls| + n] == calls + later[..n];
      ChargedAfter(Ledger(calls + later[..n], l), later[n], l, id);
    }
  }

  lemma GrantedIsCharged(charges: seq<Charge>, c: Call, l: Limits)
    requires Post(charges, c, l).1.Granted?
    ensures Charged(Post(charges, c, l).0, c.id)
  {
    ChargedAppend(charges, Charge(c.id, c.cost), c.id);
  }

  /** Once granted, an analysis id stays free: whatever happens in between, a further call with it is
      granted and charges nothing. */
  lemma GrantedStaysFree(calls: seq<Call>, c: Call, later: seq<Call>, again: Call, l: Limits)
    requires Post(Ledger(calls, l), c, l).1.Granted? && again.id == c.id
    ensures var charges := Ledger(calls + [c] + later, l);
            Post(charges, again, l).0 == charges && Post(charges, again, l).1 == Granted(l.max - Spent(charges))
  {
    GrantedIsCharged(Ledger(calls, l), c, l);
    assert (calls + [c])[..|calls|] == calls;
    assert Ledger(calls + [c], l) == Post(Ledger(calls, l), c, l).0;
    ChargedStays(calls + [c], later, l, c.id);
  }

  // ---- Exactly what is refused ----

  /** A call is refused if its id is new and its cost is more than the maximum less everything charged before,
      less the reserve too for a periodic call and for no other. */
  predicate Refuses(charges: seq<Charge>, c: Call, l: Limits) {
    !Charged(charges, c.id) && c.cost > l.max - Spent(charges) - (if c.cls == Periodic then l.reserved else 0)
  }

  /** A new id that is not refused is charged its cost, and nothing else is charged. */
  function ChargesAfter(charges: seq<Charge>, c: Call, l: Limits): seq<Charge> {
    if Refuses(charges, c, l) || Charged(charges, c.id) then charges else charges + [Charge(c.id, c.cost)]
  }

  lemma PostExactly(charges: seq<Charge>, c: Call, l: Limits)
    ensures var left := l.max - Spent(ChargesAfter(charges, c, l));
            Post(charges, c, l) == (ChargesAfter(charges, c, l),
                                    if Refuses(charges, c, l) then Exhausted(left) else Granted(left))
  {}

  lemma LedgerStep(calls: seq<Call>, next: Call, l: Limits)
    ensures Ledger(calls + [next], l) == ChargesAfter(Ledger(calls, l), next, l)
  {
    assert (calls + [next])[..|calls|] == calls;
    PostExactly(Ledger(calls, l), next, l);
  }

  /** What a call is answered: how much is left, and whether it is refused. */
  function AnswerTo(charges: seq<Charge>, c: Call, l: Limits): Outcome {
    var left := l.max - Spent(ChargesAfter(charges, c, l));
    if Refuses(charges, c, l) then Exhausted(left) else Granted(left)
  }

  lemma OutcomeExactly(charges: seq<Charge>, c: Call, l: Limits, o: Outcome)
    requires o == Post(charges, c, l).1
    ensures o == AnswerTo(charges, c, l)
  {
    PostExactly(charges, c, l);
  }

  /** After any calls, the hash and the dictionary refuse a call exactly when the charges so far leave too little
      for it, charge what is not refused and new, and report what is left. */
  lemma RefusedExactly(calls: seq<Call>, next: Call, l: Limits)
    ensures Ledger(calls + [next], l) == ChargesAfter(Ledger(calls, l), next, l)
    ensures Consume(HashAfter(calls, l), next, l).1 == AnswerTo(Ledger(calls, l), next, l)
    ensures InMemory(LocalAfter(calls, l), next, l).1 == AnswerTo(Ledger(calls, l), next, l)
  {
    LedgerStep(calls, next, l);
    NextPosts(calls, next, l);
    OutcomeExactly(Ledger(calls, l), next, l, Consume(HashAfter(calls, l), next, l).1);
    OutcomeExactly(Ledger(calls, l), next, l, InMemory(LocalAfter(calls, l), next, l).1);
  }

  lemma NextPosts(calls: seq<Call>, next: Call, l: Limits)
    ensures Consume(HashAfter(calls, l), next, l).1 == Post(Ledger(calls, l), next, l).1
    ensures InMemory(LocalAfter(calls, l), next, l).1 == Post(Ledger(calls, l), next, l).1
  {
    HashRefines(calls, l);
    LocalRefines(calls, l);
    ScriptPosts(HashAfter(calls, l), Ledger(calls, l), next, l);
    InMemoryPosts(LocalAfter(calls, l), Ledger(calls, l), next, l);
  }

  /** Millionths are counted towards zero: less than one is lost. */
  lemma MicroExact(x: real)
    ensures x >= 0.0 ==> Micro(x) as real <= x * 1000000.0 < Micro(x) as real + 1.0
    ensures x <= 0.0 ==> Micro(x) as real - 1.0 < x * 1000000.0 <= Micro(x) as real
  {}

  // ---- Failover ----

  /** How the Redis calls of one consume_budget end: with an answer, with an error before the script
      ran, or with an error after it ran. */
  datatype Reply = Answered | DownBefore | LostAfter

  datatype Request = Request(key: string, call: Call, reply: Reply)

  /** The class attributes and the Redis keys; as history, what each store was asked. */
  datatype Accountant = Accountant(available: bool, hashes: map<string, Hash>, locals: map<string, Local>,
                                   scripted: seq<Request>, fallen: seq<Request>)

  function HashAt(a: Accountant, key: string): Hash {
    if key in a.hashes then a.hashes[key] else map[]
  }

  function LocalAt(a: Accountant, key: string): Local {
    if key in a.locals then a.locals[key] else Local(0, {})
  }

  /** What both stores together have been charged for a key. */
  function SpentAt(a: Accountant, key: string): int {
    HGet(HashAt(a, key), "consumed") + LocalAt(a, key).consumed
  }

  function OnRedis(a: Accountant, r: Request, l: Limits): (Accountant, Outcome) {
    var x := Consume(HashAt(a, r.key), r.call, l);
    (a.(hashes := a.hashes[r.key := x.0], scripted := a.scripted + [r]), x.1)
  }

  function OnLocal(a: Accountant, r: Request, l: Limits): (Accountant, Outcome) {
    var x := InMemory(LocalAt(a, r.key), r.call, l);
    (a.(available := false, locals := a.locals[r.key := x.0], fallen := a.fallen + [r]), x.1)
  }

  function Step(a: Accountant, r: Request, l: Limits): (Accountant, Outcome) {
    if !a.available || r.reply.DownBefore? then OnLocal(a, r, l)
    else if r.reply.LostAfter? then OnLocal(OnRedis(a, r, l).0, r, l)
    else OnRedis(a, r, l)
  }

  function Run(requests: seq<Request>, l: Limits): Accountant {
    if requests == [] then Accountant(true, map[], map[], [], [])
    else Step(Run(requests[..|requests| - 1], l), requests[|requests| - 1], l).0
  }

  function CallsOf(requests: seq<Request>, key: string): seq<Call> {
    if requests == [] then []
    else
      var before, r := CallsOf(requests[..|requests| - 1], key), requests[|requests| - 1];
      if r.key == key then before + [r.call] else before
  }

  /** Each store is in the state its own calls lead to. */
  ghost predicate KeyOk(a: Accountant, key: string, l: Limits) {
    && HashAt(a, key) == HashAfter(CallsOf(a.scripted, key), l)
    && LocalAt(a, key) == LocalAfter(CallsOf(a.fallen, key), l)
  }

  lemma CallsOfAppend(requests: seq<Request>, r: Request, key: string)
    ensures CallsOf(requests + [r], key) == if r.key == key then CallsOf(requests, key) + [r.call]
        else CallsOf(requests, key)
  {
    assert (requests + [r])[..|requests|] == requests;
  }

  lemma HashAfterAppend(calls: seq<Call>, c: Call, l: Limits)
    ensures HashAfter(calls + [c], l) == Consume(HashAfter(calls, l), c, l).0
  {
    assert (calls + [c])[..|calls|] == calls;
  }

  lemma LocalAfterAppend(calls: seq<Call>, c: Call, l: Limits)
    ensures LocalAfter(calls + [c], l) == InMemory(LocalAfter(calls, l), c, l).0
  {
    assert (calls + [c])[..|calls|] == calls;
  }

  lemma OnRedisOk(a: Accountant, r: Request, key: string, l: Limits)
    requires KeyOk(a, key, l)
    ensures KeyOk(OnRedis(a, r, l).0, key, l)
  {
    var a' := OnRedis(a, r, l).0;
    CallsOfAppend(a.scripted, r, key);
    if r.key == key {
      HashAfterAppend(CallsOf(a.scripted, key), r.call, l);
      assert HashAt(a', key) == Consume(HashAt(a, key), r.call, l).0;
    } else {
      assert HashAt(a', key) == HashAt(a, key);
    }
  }

  lemma OnLocalOk(a: Accountant, r: Request, key: string, l: Limits)
    requires KeyOk(a, key, l)
    ensures KeyOk(OnLocal(a, r, l).0, key, l)
  {
    var a' := OnLocal(a, r, l).0;
    CallsOfAppend(a.fallen, r, key);
    if r.key == key {
      LocalAfterAppend(CallsOf(a.fallen, key), r.call, l);
      assert LocalAt(a', key) == InMemory(LocalAt(a, key), r.call, l).0;
    } else {
      assert LocalAt(a', key) == LocalAt(a, key);
    }
  }

  lemma {:induction false} EveryRun(requests: seq<Request>, key: string, l: Limits)
    ensures KeyOk(Run(requests, l), key, l)
  {
    if requests != [] {
      var n := |requests| - 1;
      EveryRun(requests[..n], key, l);
      var a, r := Run(requests[..n], l), requests[n];
      OnRedisOk(a, r, key, l);
      OnLocalOk(a, r, key, l);
      OnLocalOk(OnRedis(a, r, l).0, r, key, l);
    }
  }

  /** The charges of a key in the store that decides a request: Redis while it answers. */
  function DecidingCharges(a: Accountant, r: Request, l: Limits): seq<Charge> {
    Ledger(CallsOf(if a.available && r.reply == Answered then a.scripted else a.fallen, r.key), l)
  }

  /** In every run, failover included, a request is refused exactly if its id is new to the store that decides
      it and its cost is more than the maximum less that store's charges for the key, less the reserve too
      for a periodic request. */
  lemma RefusedInRun(requests: seq<Request>, r: Request, l: Limits)
    ensures var a := Run(requests, l);
            var charges := DecidingCharges(a, r, l);
            Step(a, r, l).1.Exhausted? <==> Refuses(charges, r.call, l)
  {
    var a := Run(requests, l);
    EveryRun(requests, r.key, l);
    StepDecides(a, r, l);
    if a.available && r.reply == Answered {
      RefusedExactly(CallsOf(a.scripted, r.key), r.call, l);
    } else {
      RefusedExactly(CallsOf(a.fallen, r.key), r.call, l);
    }
  }

  lemma StepDecides(a: Accountant, r: Request, l: Limits)
    ensures Step(a, r, l).1 == if a.available && r.reply == Answered then Consume(HashAt(a, r.key), r.call, l).1
                               else InMemory(LocalAt(a, r.key), r.call, l).1
  {
    assert LocalAt(OnRedis(a, r, l).0, r.key) == LocalAt(a, r.key);
  }

  predicate NoRefunds(requests: seq<Request>) {
    forall i :: 0 <= i < |requests| ==> requests[i].call.cost >= 0
  }

  lemma {:induction false} Histories(requests: seq<Request>, l: Limits)
    requires NoRefunds(requests)
    ensures NoRefunds(Run(requests, l).scripted) && NoRefunds(Run(requests, l).fallen)
  {
    if requests != [] {
      Histories(requests[..|requests| - 1], l);
    }
  }

  lemma {:induction false} CallsOfCosts(requests: seq<Request>, key: string)
    requires NoRefunds(requests)
    ensures Costs(CallsOf(requests, key))
  {
    if requests != [] {
      CallsOfCosts(requests[..|requests| - 1], key);
    }
  }

  /** Redis and the dictionary each respect the ceiling, so a run that fails over spends at most twice. */
  lemma AtMostTwice(requests: seq<Request>, key: string, l: Limits)
    requires NoRefunds(requests)
    ensures SpentAt(Run(requests, l), key) <= 2 * Ceiling(l)
  {
    var a := Run(requests, l);
    EveryRun(requests, key, l);
    Histories(requests, l);
    CallsOfCosts(a.scripted, key);
    CallsOfCosts(a.fallen, key);
    HashRefines(CallsOf(a.scripted, key), l);
    LocalRefines(CallsOf(a.fallen, key), l);
    LedgerKeeps(CallsOf(a.scripted, key), l);
    LedgerKeeps(CallsOf(a.fallen, key), l);
  }

  // ---- When the ceiling holds once ----

  predicate AllAnswered(replies: seq<Reply>) {
    forall i :: 0 <= i < |replies| ==> replies[i].Answered?
  }

  /** Requests whose Redis calls end in these ways. */
  predicate Follows(requests: seq<Request>, replies: seq<Reply>) {
    |requests| == |replies| && forall i :: 0 <= i < |requests| ==> requests[i].reply == replies[i]
  }

  lemma {:induction false} NothingFallen(requests: seq<Request>, l: Limits)
    requires forall i :: 0 <= i < |requests| ==> requests[i].reply.Answered?
    ensures Run(requests, l).available && Run(requests, l).fallen == [] && Run(requests, l).locals == map[]
  {
    if requests != [] {
      NothingFallen(requests[..|requests| - 1], l);
    }
  }

  /** If Redis is down for the first request, it is never charged. */
  lemma {:induction false} NothingScripted(requests: seq<Request>, l: Limits)
    requires requests != [] && requests[0].reply.DownBefore?
    ensures !Run(requests, l).available && Run(requests, l).scripted == []
  {
    var n := |requests| - 1;
    if n > 0 {
      NothingScripted(requests[..n], l);
    } else {
      assert requests[..n] == [];
    }
  }

  lemma OneStore(requests: seq<Request>, key: string, l: Limits)
    requires NoRefunds(requests) && (Run(requests, l).scripted == [] || Run(requests, l).fallen == [])
    ensures SpentAt(Run(requests, l), key) <= Ceiling(l)
  {
    var a := Run(requests, l);
    EveryRun(requests, key, l);
    Histories(requests, l);
    CallsOfCosts(a.scripted, key);
    CallsOfCosts(a.fallen, key);
    HashRefines(CallsOf(a.scripted, key), l);
    LocalRefines(CallsOf(a.fallen, key), l);
    LedgerKeeps(CallsOf(a.scripted, key), l);
    LedgerKeeps(CallsOf(a.fallen, key), l);
  }

  /** While Redis answers, nothing is charged elsewhere and the ceiling holds once. */
  lemma OnceWhileAnswered(requests: seq<Request>, key: string, l: Limits)
    requires NoRefunds(requests) && forall i :: 0 <= i < |requests| ==> requests[i].reply.Answered?
    ensures Run(requests, l).available && Run(requests, l).locals == map[]
    ensures SpentAt(Run(requests, l), key) <= Ceiling(l)
  {
    NothingFallen(requests, l);
    OneStore(requests, key, l);
  }

  /** The call that spends the whole ceiling at once. */
  function WholeCeiling(l: Limits): Call {
    Call("a", Ceiling(l), if l.reserved < 0 then Periodic else Initial)
  }

  function Copies(r: Request, replies: seq<Reply>): seq<Request> {
    if replies == [] then []
    else Copies(r, replies[..|replies| - 1]) + [r.(reply := replies[|replies| - 1])]
  }

  lemma {:induction false} CopiesFollow(r: Request, replies: seq<Reply>)
    ensures Follows(Copies(r, replies), replies)
    ensures forall i :: 0 <= i < |replies| ==>
        Copies(r, replies)[i].call == r.call && Copies(r, replies)[i].key == r.key
  {
    if replies != [] {
      CopiesFollow(r, replies[..|replies| - 1]);
    }
  }

  /** The call is charged in full in every store that was asked, and no further. */
  ghost predicate ChargedInFull(a: Accountant, key: string, l: Limits) {
    && HashAt(a, key) == (if a.scripted == [] then map[] else Script(map[], WholeCeiling(l), l).0)
    && LocalAt(a, key) == (if a.fallen == [] then Local(0, {}) else Local(Ceiling(l), {"a"}))
  }

  lemma InFullOnRedis(a: Accountant, key: string, reply: Reply, l: Limits)
    requires Ceiling(l) > 0 && ChargedInFull(a, key, l)
    ensures ChargedInFull(OnRedis(a, Request(key, WholeCeiling(l), reply), l).0, key, l)
  {
    SeenFieldApart("a");
    var h := Script(map[], WholeCeiling(l), l).0;
    assert SeenField("a") in h;
    assert Script(h, WholeCeiling(l), l).0 == h;
  }

  lemma InFullOnLocal(a: Accountant, key: string, reply: Reply, l: Limits)
    requires Ceiling(l) > 0 && ChargedInFull(a, key, l)
    ensures ChargedInFull(OnLocal(a, Request(key, WholeCeiling(l), reply), l).0, key, l)
  {
    assert InMemory(Local(0, {}), WholeCeiling(l), l).0 == Local(Ceiling(l), {"a"});
  }

  lemma {:induction false} CopiesInFull(key: string, replies: seq<Reply>, l: Limits)
    requires Ceiling(l) > 0
    ensures ChargedInFull(Run(Copies(Request(key, WholeCeiling(l), Answered), replies), l), key, l)
  {
    if replies != [] {
      var n := |replies| - 1;
      var r := Request(key, WholeCeiling(l), Answered);
      CopiesInFull(key, replies[..n], l);
      assert Copies(r, replies)[..|Copies(r, replies)| - 1] == Copies(r, replies[..n]);
      var a := Run(Copies(r, replies[..n]), l);
      InFullOnRedis(a, key, replies[n], l);
      InFullOnLocal(a, key, replies[n], l);
      InFullOnLocal(OnRedis(a, r.(reply := replies[n]), l).0, key, replies[n], l);
    }
  }

  /** Which stores a course of Redis leads to. */
  lemma {:induction false} StoresAsked(requests: seq<Request>, replies: seq<Reply>, l: Limits)
    requires Follows(requests, replies)
    ensures var a := Run(requests, l);
            && (a.available <==> AllAnswered(replies)) && (a.fallen == [] <==> AllAnswered(replies))
            && (a.scripted == [] <==> replies == [] || replies[0].DownBefore?)
  {
    if replies != [] {
      var n := |replies| - 1;
      StoresAsked(requests[..n], replies[..n], l);
      assert AllAnswered(replies) <==> AllAnswered(replies[..n]) && replies[n].Answered?;
    }
  }

  /** An error that is not a refusal from the start lets one id be charged the whole ceiling twice. */
  lemma TwiceIsReached(key: string, replies: seq<Reply>, l: Limits)
    requires Ceiling(l) > 0 && !AllAnswered(replies) && !replies[0].DownBefore?
    ensures SpentAt(Run(Copies(Request(key, WholeCeiling(l), Answered), replies), l), key) == 2 * Ceiling(l)
  {
    var r := Request(key, WholeCeiling(l), Answered);
    CopiesFollow(r, replies);
    CopiesInFull(key, replies, l);
    StoresAsked(Copies(r, replies), replies, l);
    SeenFieldApart("a");
  }

  /** For a fixed course of Redis: the two stores stay within one ceiling together, whatever is asked of
      them, exactly when no error occurs, or the very first request already finds Redis down, or the
      ceiling is zero. */
  lemma CeilingOnceExactly(replies: seq<Reply>, l: Limits)
    ensures (forall requests, key :: Follows(requests, replies) && NoRefunds(requests) ==>
             SpentAt(Run(requests, l), key) <= Ceiling(l))
       <==> (AllAnswered(replies) || replies[0].DownBefore? || Ceiling(l) == 0)
  {
    if AllAnswered(replies) || replies[0].DownBefore? || Ceiling(l) == 0 {
      forall requests, key | Follows(requests, replies)
          && NoRefunds(requests) ensures SpentAt(Run(requests, l), key) <= Ceiling(l) {
        if AllAnswered(replies) {
          OnceWhileAnswered(requests, key, l);
        } else if replies[0].DownBefore? {
          NothingScripted(requests, l);
          OneStore(requests, key, l);
        } else {
          AtMostTwice(requests, key, l);
        }
      }
    } else {
      var r := Request("k", WholeCeiling(l), Answered);
      CopiesFollow(r, replies);
      TwiceIsReached("k", replies, l);
      assert NoRefunds(Copies(r, replies));
    }
  }

  // ---- What one request charges ----

  /** A request changes its own key only, by nothing or by its cost, and never by its cost without
      being granted by that store; a periodic one then leaves the reserve. */
  predicate ChargedBy(r: Request, l: Limits, before: int, after: int, o: Outcome) {
    || after == before
    || (after == before + r.call.cost && o.Granted? && Spendable(l, r.call.cls, before) >= r.call.cost)
  }

  lemma OnRedisCharges(a: Accountant, r: Request, l: Limits)
    ensures var x := OnRedis(a, r, l);
            && ChargedBy(r, l, HGet(HashAt(a, r.key), "consumed"), HGet(HashAt(x.0, r.key), "consumed"), x.1)
            && x.0.locals == a.locals && forall key :: key != r.key ==> HashAt(x.0, key) == HashAt(a, key)
  {
    SeenFieldApart(r.call.id);
  }

  lemma OnLocalCharges(a: Accountant, r: Request, l: Limits)
    ensures var x := OnLocal(a, r, l);
            && ChargedBy(r, l, LocalAt(a, r.key).consumed, LocalAt(x.0, r.key).consumed, x.1)
            && x.0.hashes == a.hashes && forall key :: key != r.key ==> LocalAt(x.0, key) == LocalAt(a, key)
  {}

  /** The total of the store that consumption goes to, and whether it has charged an id. */
  function InUse(a: Accountant, key: string): int {
    if a.available then HGet(HashAt(a, key), "consumed") else LocalAt(a, key).consumed
  }

  predicate SeenInUse(a: Accountant, key: string, id: string) {
    if a.available then SeenField(id) in HashAt(a, key) else id in LocalAt(a, key).seen
  }

  lemma ScriptCharges(h: Hash, c: Call, l: Limits)
    requires SeenField(c.id) !in h && Spendable(l, c.cls, HGet(h, "consumed")) >= c.cost
    ensures HGet(Script(h, c, l).0, "consumed") == HGet(h, "consumed") + c.cost
    ensures Script(h, c, l).1.status == 2
  {
    SeenFieldApart(c.id);
  }

  /** An affordable request with a new id, on the store in use and without an error. */
  lemma PlainStep(a: Accountant, r: Request, l: Limits)
    requires (a.available ==> r.reply.Answered?) && !SeenInUse(a, r.key, r.call.id)
    requires Spendable(l, r.call.cls, InUse(a, r.key)) >= r.call.cost
    ensures var x := Step(a, r, l);
            && x.1.Granted? && x.0.available == a.available
            && SpentAt(x.0, r.key) == SpentAt(a, r.key) + r.call.cost
  {
    if a.available {
      ScriptCharges(HashAt(a, r.key), r.call, l);
      assert HashAt(Step(a, r, l).0, r.key) == Script(HashAt(a, r.key), r.call, l).0;
    }
  }

  /** A first request whose answer is lost is charged twice and granted once. */
  lemma LostStep(a: Accountant, r: Request, l: Limits)
    requires a.available && r.reply.LostAfter? && HashAt(a, r.key) == map[] && LocalAt(a, r.key) == Local(0, {})
    requires Spendable(l, r.call.cls, 0) >= r.call.cost
    ensures var x := Step(a, r, l);
            x.1.Granted? && !x.0.available && SpentAt(x.0, r.key) == 2 * r.call.cost
  {
    ScriptCharges(map[], r.call, l);
    var a1 := OnRedis(a, r, l).0;
    assert HashAt(a1, r.key) == Script(map[], r.call, l).0 && LocalAt(a1, r.key) == Local(0, {});
  }

  /** get_budget_status: what one store says, Redis if it can be reached and the dictionary otherwise. */
  datatype Status = Status(consumed: int, count: int) {
    predicate Available(totalEpsilon: real) {
      totalEpsilon - consumed as real / SCALE > 0.0
    }
  }

  function StatusOf(a: Accountant, key: string, reachable: bool): Status {
    if reachable then Status(HGet(HashAt(a, key), "consumed"), HGet(HashAt(a, key), "count"))
    else Status(LocalAt(a, key).consumed, |LocalAt(a, key).seen|)
  }

  /** The status is exact for the calls the store that is asked has executed, and blind to the
      other's: a Redis that comes back after a failover does not report what was spent since. */
  lemma StatusReports(requests: seq<Request>, key: string, l: Limits, reachable: bool)
    ensures var a := Run(requests, l);
            var charges := Ledger(CallsOf(if reachable then a.scripted else a.fallen, key), l);
            StatusOf(a, key, reachable) == Status(Spent(charges), |charges|)
  {
    var a := Run(requests, l);
    EveryRun(requests, key, l);
    HashRefines(CallsOf(a.scripted, key), l);
    LocalRefines(CallsOf(a.fallen, key), l);
  }

  // ---- Epochs and keys ----

  /** get_epoch: the epoch's number and the seconds left in it, truncated. */
  function Epoch(now: real, hours: int): (int, int)
    requires hours > 0
  {
    var seconds := (hours * 3600) as real;
    var epoch := (now / seconds).Floor;
    (epoch, ((epoch + 1) as real * seconds - now).Floor)
  }

  /** A key made now expires with its epoch or less than a second before; in the epoch's last second
      the time to live is zero, with which EXPIRE drops the key at once. */
  lemma ExpiresWithEpoch(now: real, hours: int)
    requires hours > 0 && now >= 0.0
    ensures var (epoch, ttl) := Epoch(now, hours);
            var end := (epoch + 1) as real * (hours * 3600) as real;
            && epoch >= 0 && epoch as real * (hours * 3600) as real <= now < end
            && end - 1.0 < now + ttl as real <= end
            && (ttl == 0 <==> end - now < 1.0)
  {
    var seconds := (hours * 3600) as real;
    var x := now / seconds;
    assert x >= 0.0;
    var epoch := x.Floor;
    assert x * seconds == now;
    assert epoch as real <= x < (epoch + 1) as real;
    ScaleUp(epoch as real, x, seconds);
    ScaleUp(x, (epoch + 1) as real, seconds);
    assert now < (epoch + 1) as real * seconds;
  }

  lemma ScaleUp(x: real, y: real, k: real)
    requires k > 0.0
    ensures x <= y ==> x * k <= y * k
    ensures x < y ==> x * k < y * k
  {
    assert y * k - x * k == (y - x) * k;
  }

  // ---- Expiry ----

  /** A key with its hash and the time it expires, if an expiry is set. */
  datatype Key = Key(hash: Hash, expires: Option<real>)

  const NO_KEY := Key(map[], None)

  /** When a request reaches the script, and the time to live it carries. */
  datatype Stamp = Stamp(at: real, ttl: int)

  function Live(k: Key, now: real): Key {
    if k.expires.Some? && k.expires.value <= now then NO_KEY else k
  }

  /** The script with its last lines: a charge on a key without an expiry sets one. An expiry of
      zero seconds is one that has passed already. */
  function ScriptOnKey(k: Key, c: Call, l: Limits, stamp: Stamp): (Key, Answer) {
    var live := Live(k, stamp.at);
    var x := Script(live.hash, c, l);
    if x.1.status == 2 && live.expires.None? then (Key(x.0, Some(stamp.at + stamp.ttl as real)), x.1)
    else (live.(hash := x.0), x.1)
  }

  /** The key after these calls at these times, and what they were charged in all. */
  function KeyRun(calls: seq<Call>, stamps: seq<Stamp>, l: Limits): (Key, int)
    requires |calls| == |stamps|
  {
    if calls == [] then (NO_KEY, 0)
    else
      var n := |calls| - 1;
      var before := KeyRun(calls[..n], stamps[..n], l);
      var x := ScriptOnKey(before.0, calls[n], l, stamps[n]);
      (x.0, before.1 + if x.1.status == 2 then x.1.charged else 0)
  }

  /** No request comes when a key made by an earlier one would have expired. */
  predicate NoneExpired(stamps: seq<Stamp>) {
    forall i, j :: 0 <= i < j < |stamps| ==> stamps[j].at < stamps[i].at + stamps[i].ttl as real
  }

  predicate ExpiresBy(k: Key, stamps: seq<Stamp>) {
    k.expires.Some? ==>
      exists i :: 0 <= i < |stamps| && k.expires.value == stamps[i].at + stamps[i].ttl as real
  }

  /** Until it expires the key is the plain hash, and what was charged is what it holds. */
  lemma {:induction false} KeyLives(calls: seq<Call>, stamps: seq<Stamp>, l: Limits)
    requires |calls| == |stamps| && NoneExpired(stamps)
    ensures var r := KeyRun(calls, stamps, l);
            && r.0.hash == HashAfter(calls, l) && r.1 == HGet(r.0.hash, "consumed") && ExpiresBy(r.0, stamps)
  {
    if calls != [] {
      var n := |calls| - 1;
      KeyLives(calls[..n], stamps[..n], l);
      var before := KeyRun(calls[..n], stamps[..n], l);
      if before.0.expires.Some? {
        var i :| 0 <= i < n && before.0.expires.value == stamps[..n][i].at + stamps[..n][i].ttl as real;
        assert stamps[..n][i] == stamps[i];
      }
      assert Live(before.0, stamps[n].at) == before.0;
      ScriptConsumes(before.0.hash, calls[n], l);
      assert KeyRun(calls, stamps, l).0.expires.Some? && before.0.expires.None? ==>
        KeyRun(calls, stamps, l).0.expires.value == stamps[n].at + stamps[n].ttl as real;
    }
  }

  lemma ScriptConsumes(h: Hash, c: Call, l: Limits)
    ensures var x := Script(h, c, l);
            HGet(x.0, "consumed") == HGet(h, "consumed") + if x.1.status == 2 then x.1.charged else 0
  {
    SeenFieldApart(c.id);
  }

  // ---- When an expiry lets the ceiling be passed ----

  /** A call no store can afford. */
  function TooMuch(l: Limits): Call {
    Call("b", Ceiling(l) + 1, Initial)
  }

  /** The whole ceiling in calls i and j, too much in all others. */
  function Picks(n: nat, i: nat, j: nat, l: Limits): (calls: seq<Call>)
    ensures |calls| == n
  {
    if n == 0 then []
    else Picks(n - 1, i, j, l) + [if n - 1 == i || n - 1 == j then WholeCeiling(l) else TooMuch(l)]
  }

  lemma {:induction false} PicksCost(n: nat, i: nat, j: nat, l: Limits)
    ensures Costs(Picks(n, i, j, l))
  {
    if n > 0 {
      PicksCost(n - 1, i, j, l);
    }
  }

  function FullHash(l: Limits): Hash {
    Script(map[], WholeCeiling(l), l).0
  }

  lemma FullFacts(l: Limits)
    requires Ceiling(l) > 0
    ensures Script(map[], WholeCeiling(l), l).1 == Answer(2, Ceiling(l), Ceiling(l))
    ensures Script(map[], TooMuch(l), l).0 == map[] && Script(map[], TooMuch(l), l).1.status == 0
    ensures Script(FullHash(l), TooMuch(l), l).0 == FullHash(l) && Script(FullHash(l), TooMuch(l), l).1.status == 0
  {
    SeenFieldApart("a");
    SeenFieldApart("b");
    if SeenField("a") == SeenField("b") {
      SeenFieldInjective("a", "b");
    }
  }

  /** What has been charged after n of the picked calls, and in which states the key may be. */
  ghost predicate Picked(r: (Key, int), n: nat, i: nat, j: nat, stamps: seq<Stamp>, l: Limits)
    requires i < j < |stamps|
  {
    if n <= i then r == (NO_KEY, 0)
    else if n <= j then
      && r.1 == Ceiling(l)
      && (r.0 == NO_KEY || r.0 == Key(FullHash(l), Some(stamps[i].at + stamps[i].ttl as real)))
    else r.1 == 2 * Ceiling(l) && (r.0.hash == map[] || r.0.hash == FullHash(l))
  }

  lemma PickedStep(r: (Key, int), n: nat, i: nat, j: nat, stamps: seq<Stamp>, l: Limits)
    requires Ceiling(l) > 0 && i < j < |stamps| && n < |stamps| && Picked(r, n, i, j, stamps, l)
    requires stamps[j].at >= stamps[i].at + stamps[i].ttl as real
    ensures var c := if n == i || n == j then WholeCeiling(l) else TooMuch(l);
            var x := ScriptOnKey(r.0, c, l, stamps[n]);
            Picked((x.0, r.1 + if x.1.status == 2 then x.1.charged else 0), n + 1, i, j, stamps, l)
  {
    FullFacts(l);
  }

  lemma {:induction false} PickedRun(n: nat, i: nat, j: nat, stamps: seq<Stamp>, l: Limits)
    requires Ceiling(l) > 0 && i < j < |stamps| && n <= |stamps|
    requires stamps[j].at >= stamps[i].at + stamps[i].ttl as real
    ensures Picked(KeyRun(Picks(n, i, j, l), stamps[..n], l), n, i, j, stamps, l)
  {
    if n > 0 {
      PickedRun(n - 1, i, j, stamps, l);
      assert Picks(n, i, j, l)[..n - 1] == Picks(n - 1, i, j, l);
      assert stamps[..n][..n - 1] == stamps[..n - 1] && stamps[..n][n - 1] == stamps[n - 1];
      PickedStep(KeyRun(Picks(n - 1, i, j, l), stamps[..n - 1], l), n - 1, i, j, stamps, l);
    }
  }

  /** For fixed times and times to live: what Redis charges for one key stays under the ceiling, whatever
      is asked, exactly when no request comes after a key made by an earlier one would have expired, or the
      ceiling is zero. */
  lemma ExpiryExactly(stamps: seq<Stamp>, l: Limits)
    ensures (forall calls :: |calls| == |stamps| && Costs(calls) ==> KeyRun(calls, stamps, l).1 <= Ceiling(l))
       <==> (Ceiling(l) == 0 || NoneExpired(stamps))
  {
    if Ceiling(l) == 0 {
      forall calls | |calls| == |stamps| && Costs(calls) ensures KeyRun(calls, stamps, l).1 <= Ceiling(l) {
        NothingAtZero(calls, stamps, l);
      }
    } else if NoneExpired(stamps) {
      forall calls | |calls| == |stamps| && Costs(calls) ensures KeyRun(calls, stamps, l).1 <= Ceiling(l) {
        KeyLives(calls, stamps, l);
        HashKeeps(calls, l);
      }
    } else {
      var i, j :| 0 <= i < j < |stamps| && stamps[j].at >= stamps[i].at + stamps[i].ttl as real;
      PickedRun(|stamps|, i, j, stamps, l);
      PicksCost(|stamps|, i, j, l);
      assert stamps[..|stamps|] == stamps;
      assert KeyRun(Picks(|stamps|, i, j, l), stamps, l).1 == 2 * Ceiling(l);
    }
  }

  /** With a ceiling of zero every charge is zero, expired keys or not. */
  lemma {:induction false} NothingAtZero(calls: seq<Call>, stamps: seq<Stamp>, l: Limits)
    requires |calls| == |stamps| && Costs(calls) && Ceiling(l) == 0
    ensures var r := KeyRun(calls, stamps, l); r.1 == 0 && HGet(r.0.hash, "consumed") == 0
  {
    if calls != [] {
      var n := |calls| - 1;
      NothingAtZero(calls[..n], stamps[..n], l);
      ScriptConsumes(Live(KeyRun(calls[..n], stamps[..n], l).0, stamps[n].at).hash, calls[n], l);
    }
  }

  /** What get_epoch says at this time. */
  function StampAt(now: real, hours: int): Stamp
    requires hours > 0
  {
    Stamp(now, Epoch(now, hours).1)
  }

  function StampsAt(times: seq<real>, hours: int): seq<Stamp>
    requires hours > 0
  {
    seq(|times|, i requires 0 <= i < |times| => StampAt(times[i], hours))
  }

  /** All the requests fall into one epoch, in order. */
  predicate OneEpoch(times: seq<real>, hours: int)
    requires hours > 0
  {
    && (forall i :: 0 <= i < |times| ==> times[i] >= 0.0 && Epoch(times[i], hours).0 == Epoch(times[0], hours).0)
    && (forall i, j :: 0 <= i < j < |times| ==> times[i] <= times[j])
  }

  function EpochEnd(now: real, hours: int): real
    requires hours > 0
  {
    (Epoch(now, hours).0 + 1) as real * (hours * 3600) as real
  }

  lemma LivesTo(now: real, hours: int)
    requires hours > 0 && now >= 0.0
    ensures EpochEnd(now, hours) - 1.0 < now + StampAt(now, hours).ttl as real
  {
    ExpiresWithEpoch(now, hours);
  }

  /** With the times to live of get_epoch the ceiling can be passed only in the last second of an epoch: it
      holds when no request but the first comes then. */
  lemma QuietLastSecond(calls: seq<Call>, times: seq<real>, hours: int, l: Limits)
    requires hours > 0 && OneEpoch(times, hours) && |calls| == |times| && Costs(calls)
    requires forall j :: 0 < j < |times| ==> times[j] <= EpochEnd(times[j], hours) - 1.0
    ensures KeyRun(calls, StampsAt(times, hours), l).1 <= Ceiling(l)
  {
    var stamps := StampsAt(times, hours);
    forall i, j | 0 <= i < j < |stamps| ensures stamps[j].at < stamps[i].at + stamps[i].ttl as real {
      LivesTo(times[i], hours);
      assert EpochEnd(times[i], hours) == EpochEnd(times[j], hours);
    }
    ExpiryExactly(stamps, l);
  }

  function Repeated(c: Call, n: nat): (calls: seq<Call>)
    ensures |calls| == n
  {
    if n == 0 then [] else Repeated(c, n - 1) + [c]
  }

  /** Requests in order, every one of them after the key of the one before has expired. */
  predicate EachExpired(stamps: seq<Stamp>) {
    forall i, j :: 0 <= i < j < |stamps| ==> stamps[j].at >= stamps[i].at + stamps[i].ttl as real
  }

  function WholeBudget(l: Limits): Call {
    Call("a", l.max, Initial)
  }

  /** A call for the whole budget on a key that has expired, or was never made. */
  lemma ChargedAfresh(k: Key, stamp: Stamp, l: Limits)
    requires Live(k, stamp.at) == NO_KEY
    ensures var x := ScriptOnKey(k, WholeBudget(l), l, stamp);
            x.1 == Answer(2, l.max, l.max) && x.0.expires == Some(stamp.at + stamp.ttl as real)
  {
    SeenFieldApart("a");
  }

  lemma {:induction false} LateRun(stamps: seq<Stamp>, l: Limits)
    requires EachExpired(stamps)
    ensures var r := KeyRun(Repeated(WholeBudget(l), |stamps|), stamps, l);
            && r.1 == |stamps| * l.max
            && if stamps == [] then r.0 == NO_KEY
               else r.0.expires == Some(stamps[|stamps| - 1].at + stamps[|stamps| - 1].ttl as real)
  {
    if stamps != [] {
      var n, c := |stamps| - 1, WholeBudget(l);
      LateRun(stamps[..n], l);
      assert Repeated(c, n + 1)[..n] == Repeated(c, n);
      ChargedAfresh(KeyRun(Repeated(c, n), stamps[..n], l).0, stamps[n], l);
      OneMore(n, l.max);
    }
  }

  lemma OneMore(n: nat, k: int)
    ensures (n + 1) * k == n * k + k
  {}

  lemma LastSecondStamp(now: real, hours: int)
    requires hours > 0 && now >= 0.0 && EpochEnd(now, hours) - now < 1.0
    ensures StampAt(now, hours) == Stamp(now, 0)
  {
    ExpiresWithEpoch(now, hours);
  }

  /** In the last second of an epoch, where the time to live is zero, there is no bound at all: the same
      call for the whole budget is granted and charged any number of times. */
  lemma LastSecondUnbounded(times: seq<real>, hours: int, l: Limits)
    requires hours > 0 && OneEpoch(times, hours)
    requires forall i :: 0 <= i < |times| ==> EpochEnd(times[i], hours) - times[i] < 1.0
    ensures KeyRun(Repeated(WholeBudget(l), |times|), StampsAt(times, hours), l).1 == |times| * l.max
  {
    var stamps := StampsAt(times, hours);
    forall i, j | 0 <= i < j < |stamps| ensures stamps[j].at >= stamps[i].at + stamps[i].ttl as real {
      LastSecondStamp(times[i], hours);
    }
    LateRun(stamps, l);
  }

  function BudgetKey(user: string, epoch: nat): string {
    "dp:budget:" + user + ":" + Str(epoch)
  }

  /** Users and epochs do not share keys. */
  lemma KeysApart(user: string, epoch: nat, user': string, epoch': nat)
    requires BudgetKey(user, epoch) == BudgetKey(user', epoch')
    ensures user == user' && epoch == epoch'
  {
    var rest, rest' := user + ":" + Str(epoch), user' + ":" + Str(epoch');
    assert BudgetKey(user, epoch)[10..] == rest && BudgetKey(user', epoch')[10..] == rest';
    LastColon(user, Str(epoch), user', Str(epoch'));
    StrInjective(epoch, epoch');
  }

  lemma NoLaterColon(a: string, digits: string, k: nat)
    requires AllDigits(digits) && |a| < k <= |a| + |digits|
    ensures (a + ":" + digits)[k] != ':'
  {
    assert (a + ":" + digits)[k] == digits[k - |a| - 1];
  }

  lemma LastColon(a: string, digits: string, b: string, digits': string)
    requires AllDigits(digits) && AllDigits(digits') && a + ":" + digits == b + ":" + digits'
    ensures a == b && digits == digits'
  {
    var s, s' := a + ":" + digits, b + ":" + digits';
    assert |s| == |a| + 1 + |digits| && |s'| == |b| + 1 + |digits'| && s'[|b|] == ':' && s[|a|] == ':';
    if |a| < |b| {
      NoLaterColon(a, digits, |b|);
    } else if |b| < |a| {
      NoLaterColon(b, digits', |a|);
    } else {
      assert a == s[..|a|] && b == s'[..|a|];
      assert digits == s[|a| + 1..] && digits' == s'[|a| + 1..];
    }
  }

  // ---- The accountant ----

  class RedisServer {
    var hashes: map<string, Hash>

    constructor ()
      ensures hashes == map[]
    {
      hashes := map[];
    }

    /** EVALSHA of the script on one key. */
    method EvalSha(key: string, c: Call, l: Limits) returns (a: Answer)
      modifies this
      ensures var h := if key in old(hashes) then old(hashes)[key] else map[];
              hashes == old(hashes)[key := Script(h, c, l).0] && a == Script(h, c, l).1
    {
      var h: Hash := if key in hashes then hashes[key] else map[];
      var consumed := HGet(h, "consumed");
      if SeenField(c.id) in h {
        hashes := hashes[key := h];
        return Answer(1, h[SeenField(c.id)], consumed);
      }
      if Spendable(l, c.cls, consumed) < c.cost {
        hashes := hashes[key := h];
        return Answer(0, 0, consumed);
      }
      h := h["consumed" := consumed + c.cost];
      SeenFieldApart(c.id);
      h := h["count" := HGet(h, "count") + 1];
      h := h[SeenField(c.id) := c.cost];
      hashes := hashes[key := h];
      return Answer(2, c.cost, consumed + c.cost);
    }
  }

  datatype Settings = Settings(totalEpsilon: real, reservedEpsilon: real, epochHours: int)

  class PrivacyBudgetAccountant {
    const settings: Settings
    const redis: RedisServer
    var redisAvailable: bool
    var localBudget: map<string, Local>
    ghost var scripted: seq<Request>
    ghost var fallen: seq<Request>

    ghost function View(): Accountant
      reads this, redis
    {
      Accountant(redisAvailable, redis.hashes, localBudget, scripted, fallen)
    }

    constructor (settings: Settings, redis: RedisServer)
      ensures this.settings == settings && this.redis == redis
      ensures redisAvailable && localBudget == map[] && scripted == [] && fallen == []
    {
      this.settings, this.redis := settings, redis;
      redisAvailable, localBudget, scripted, fallen := true, map[], [], [];
    }

    function Budget(): Limits {
      Limits(Micro(settings.totalEpsilon), Micro(settings.reservedEpsilon))
    }

    method InMemoryConsume(key: string, c: Call) returns (o: Outcome)
      modifies this`localBudget
      ensures var x := InMemory(if key in old(localBudget) then old(localBudget)[key] else Local(0, {}), c, Budget());
              localBudget == old(localBudget)[key := x.0] && o == x.1
    {
      if key !in localBudget {
        localBudget := localBudget[key := Local(0, {})];
      }
      var b := localBudget[key];
      if c.id in b.seen {
        return Granted(Budget().max - b.consumed);
      }
      if Spendable(Budget(), c.cls, b.consumed) < c.cost {
        return Exhausted(Budget().max - b.consumed);
      }
      b := b.(consumed := b.consumed + c.cost);
      b := b.(seen := b.seen + {c.id});
      localBudget := localBudget[key := b];
      return Granted(Budget().max - b.consumed);
    }

    /** consume_budget; None is the configuration error. */
    method ConsumeBudget(user: string, epsilon: real, id: string, cls: Class, now: real, reply: Reply)
      returns (o: Option<Outcome>)
      requires settings.epochHours > 0 && now >= 0.0
      modifies this, redis
      ensures epsilon <= 0.0 ==> o == None && View() == old(View())
      ensures epsilon > 0.0 ==>
        Epoch(now, settings.epochHours).0 >= 0 && Micro(epsilon) >= 0 &&
        var r := Request(BudgetKey(user, Epoch(now, settings.epochHours).0), Call(id, Micro(epsilon), cls), reply);
        View() == Step(old(View()), r, Budget()).0 && o == Some(Step(old(View()), r, Budget()).1)
    {
      if epsilon <= 0.0 {
        return None;
      }
      ExpiresWithEpoch(now, settings.epochHours);
      var epoch := Epoch(now, settings.epochHours).0;
      var key := BudgetKey(user, epoch);
      var c := Call(id, Micro(epsilon), cls);
      ghost var r := Request(key, c, reply);
      var answered := false;
      if redisAvailable && !reply.DownBefore? {
        var answer := redis.EvalSha(key, c, Budget());
        scripted := scripted + [r];
        if reply.Answered? {
          return Some(ScriptOutcome(answer, Budget()));
        }
      }
      redisAvailable := false;
      fallen := fallen + [r];
      var x := InMemoryConsume(key, c);
      return Some(x);
    }

    method GetBudgetStatus(user: string, now: real, reachable: bool) returns (s: Status)
      requires settings.epochHours > 0 && now >= 0.0
      ensures Epoch(now, settings.epochHours).0 >= 0
      ensures s == StatusOf(View(), BudgetKey(user, Epoch(now, settings.epochHours).0), reachable)
    {
      ExpiresWithEpoch(now, settings.epochHours);
      var key := BudgetKey(user, Epoch(now, settings.epochHours).0);
      if reachable {
        var h: Hash := if key in redis.hashes then redis.hashes[key] else map[];
        return Status(HGet(h, "consumed"), HGet(h, "count"));
      }
      if key in localBudget {
        return Status(localBudget[key].consumed, |localBudget[key].seen|);
      }
      return Status(0, 0);
    }
  }
}
