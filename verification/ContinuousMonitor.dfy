// The behavioural monitor of one transfer: when it analyses again, what each analysis
// charges to the sender's privacy budget in Redis and in the process, and how its
// telemetry moves.

module ContinuousMonitor {
  import opened Basics
  import opened Text
  import opened PrivacyBudget

  datatype Settings = Settings(
    enabled: bool, intervalSeconds: int, everyChunks: int, blockThreshold: real,
    dpEnabled: bool, epsilon: real, totalEpsilon: real, reservedEpsilon: real,
    maxAnalyses: int, softLimitPercent: int, failClosed: bool)
  {
    function Budget(): Limits {
      Limits(Micro(totalEpsilon), Micro(reservedEpsilon))
    }

    function Cost(): int {
      Micro(epsilon)
    }
  }

  /** What does not change during a transfer; `media` says whether the file name has a media extension. */
  datatype Transfer = Transfer(id: string, fileSize: nat, startedAt: real, media: bool)

  datatype Level = Low | Medium | High | Critical

  datatype Risk = Normal | Elevated | HighRisk | BlockedRisk

  datatype Status = InProgress | Blocked | Completed

  datatype Score = Score(anomaly: real, level: Level)

  datatype Telemetry = Telemetry(bytes: nat, chunks: nat, lastEvaluationAt: real, lastEvaluationChunks: nat,
                                 risk: Risk, current: real, maximum: real, samples: nat, status: Status)

  /** One analysis: the budget key of the moment, how its Redis calls end, what the model makes of it,
      and whether it raises before the budget is charged or after. */
  datatype Analysis = Analysis(key: string, suffix: string, now: real, reply: Reply, score: Score,
                               raisesBefore: bool, raisesAfter: bool)

  /** The accountant and the telemetry; as history the scores taken, what this transfer has been charged
      in both stores, how many analyses raised once the budget had been granted, and how many lost
      the answer of a script that had run. */
  datatype State = State(t: Telemetry, acct: Accountant, scores: seq<Score>, spent: int, wasted: nat, lost: nat)

  // ---- Analysis ----

  function AnalysisId(x: Transfer, chunks: nat, suffix: string): string {
    x.id + ":" + Str(chunks) + ":" + suffix
  }

  /** The class the AI service charges an analysis id under. */
  function ClassOf(id: string): Class {
    if id != "" && ':' in id then Periodic else Initial
  }

  /** Every analysis a monitor asks for is charged as a periodic one. */
  lemma MonitorsArePeriodic(x: Transfer, chunks: nat, suffix: string)
    ensures ClassOf(AnalysisId(x, chunks, suffix)) == Periodic
  {
    assert AnalysisId(x, chunks, suffix)[|x.id|] == ':';
  }

  /** Ids without a colon, and no others, are charged as initial analyses. */
  lemma ClassExactly(id: string)
    ensures ClassOf(id) == Initial <==> ':' !in id
  {}

  /** The analyses of one transfer after different numbers of fragments, or with different random suffixes,
      have different ids, so none of them is free. */
  lemma AnalysesApartById(x: Transfer, i: nat, suffix: string, j: nat, suffix': string)
    requires AnalysisId(x, i, suffix) == AnalysisId(x, j, suffix')
    ensures i == j && suffix == suffix'
  {
    var a, b := AnalysisId(x, i, suffix), AnalysisId(x, j, suffix');
    var rest, rest' := Str(i) + [':'] + suffix, Str(j) + [':'] + suffix';
    assert a == x.id + ":" + rest && b == x.id + ":" + rest';
    assert rest == a[|x.id| + 1..] == b[|x.id| + 1..] == rest';
    UpToAppend(Str(i), ':', suffix);
    UpToAppend(Str(j), ':', suffix');
    StrInjective(i, j);
    assert suffix == rest[|Str(i)| + 1..] && suffix' == rest'[|Str(j)| + 1..];
  }

  const MIB := 1048576

  function Elapsed(x: Transfer, now: real): real {
    if now - x.startedAt < 0.1 then 0.1 else now - x.startedAt
  }

  predicate Throttled(x: Transfer, bytes: nat, now: real) {
    && bytes as real / MIB as real / Elapsed(x, now) < 0.05
    && x.fileSize > 50 * MIB && Elapsed(x, now) > 10.0
  }

  function RollingHeuristics(x: Transfer, bytes: nat, now: real, s: Score): Score {
    if !Throttled(x, bytes, now) then s
    else
      var raised := if s.anomaly + 0.2 < 1.0 then s.anomaly + 0.2 else 1.0;
      Score(raised, if raised >= 0.8 then High else if raised >= 0.4 && s.level != High then Medium else s.level)
  }

  function RiskOf(s: Settings, r: Score): Risk {
    if r.anomaly >= s.blockThreshold || r.level == Critical then BlockedRisk
    else if r.anomaly >= 0.6 || r.level == High then HighRisk
    else if r.anomaly >= 0.35 || r.level == Medium then Elevated
    else Normal
  }

  /** analyze_transfer: the new accountant, the score unless it raised, whether it raised after a grant,
      and whether the answer of the script was lost. */
  datatype Analysed = Analysed(acct: Accountant, score: Option<Score>, wasted: bool, lost: bool)

  function ChargeOf(s: Settings, x: Transfer, chunks: nat, a: Analysis): Request {
    var id := AnalysisId(x, chunks, a.suffix);
    Request(a.key, Call(id, s.Cost(), ClassOf(id)), a.reply)
  }

  function AnalyzeTransfer(s: Settings, x: Transfer, chunks: nat, acct: Accountant, a: Analysis): Analysed {
    if x.media then Analysed(acct, Some(Score(0.15, Low)), false, false)
    else if a.raisesBefore || (s.dpEnabled && s.epsilon <= 0.0) then Analysed(acct, None, false, false)
    else if !s.dpEnabled then Analysed(acct, if a.raisesAfter then None else Some(a.score), false, false)
    else
      var charged := PrivacyBudget.Step(acct, ChargeOf(s, x, chunks, a), s.Budget());
      var lost := acct.available && a.reply.LostAfter?;
      if charged.1.Exhausted? then Analysed(charged.0, if s.failClosed then None else Some(a.score), false, lost)
      else Analysed(charged.0, if a.raisesAfter then None else Some(a.score), a.raisesAfter, lost)
  }

  function Record(s: Settings, t: Telemetry, now: real, score: Score): Telemetry {
    var risk := RiskOf(s, score);
    t.(current := score.anomaly,
       maximum := if t.maximum < score.anomaly then score.anomaly else t.maximum,
       lastEvaluationAt := now, lastEvaluationChunks := t.chunks, samples := t.samples + 1,
       risk := risk, status := if risk == BlockedRisk then Blocked else t.status)
  }

  function Reanalyze(s: Settings, x: Transfer, st: State, a: Analysis): State {
    var r := AnalyzeTransfer(s, x, st.t.chunks, st.acct, a);
    var charged := st.(acct := r.acct, spent := st.spent + SpentAt(r.acct, a.key) - SpentAt(st.acct, a.key),
                       wasted := if r.wasted then st.wasted + 1 else st.wasted,
                       lost := if r.lost then st.lost + 1 else st.lost);
    if r.score.None? then charged
    else
      var score := RollingHeuristics(x, st.t.bytes, a.now, r.score.value);
      charged.(t := Record(s, st.t, a.now, score), scores := st.scores + [score])
  }

  // ---- The guard ----

  predicate Soft(s: Settings, consumed: real) {
    s.totalEpsilon != 0.0 && consumed / s.totalEpsilon * 100.0 >= s.softLimitPercent as real
  }

  predicate ShouldReanalyse(s: Settings, t: Telemetry, status: PrivacyBudget.Status, now: real) {
    var consumed := status.consumed as real / SCALE;
    var available := status.Available(s.totalEpsilon);
    if !s.enabled || t.samples >= s.maxAnalyses then false
    else if available && s.totalEpsilon - consumed <= s.reservedEpsilon then false
    else if t.lastEvaluationAt == 0.0 then true
    else
      var factor := if available && Soft(s, consumed) then 3 else 1;
      || now - t.lastEvaluationAt >= (s.intervalSeconds * factor) as real
      || t.chunks - t.lastEvaluationChunks >= s.everyChunks * factor
  }

  // ---- Runs ----

  /** A fragment: the guard reads the status of a key, from Redis if it can be reached, and the analysis
      is made if the guard allows one. A request to the accountant from elsewhere. The end of the transfer. */
  datatype Event =
    | Fragment(bytes: nat, key: string, reachable: bool, now: real, a: Analysis)
    | Elsewhere(request: Request)
    | Complete

  function UpdateTelemetry(t: Telemetry, bytes: nat): Telemetry {
    t.(bytes := t.bytes + bytes, chunks := t.chunks + 1)
  }

  function Advance(s: Settings, x: Transfer, st: State, e: Event): State {
    match e
    case Fragment(bytes, key, reachable, now, a) =>
      var next := st.(t := UpdateTelemetry(st.t, bytes));
      if ShouldReanalyse(s, next.t, StatusOf(st.acct, key, reachable), now) then Reanalyze(s, x, next, a) else next
    case Elsewhere(request) => st.(acct := PrivacyBudget.Step(st.acct, request, s.Budget()).0)
    case Complete => if st.t.status.Blocked? then st else st.(t := st.t.(status := Completed))
  }

  const NEW_TELEMETRY := Telemetry(0, 0, 0.0, 0, Normal, 0.0, 0.0, 0, InProgress)

  function Start(acct: Accountant): State {
    State(NEW_TELEMETRY, acct, [], 0, 0, 0)
  }

  /** A transfer: one analysis without the guard, then the events in order. */
  function Run(s: Settings, x: Transfer, acct: Accountant, first: Analysis, events: seq<Event>): State {
    if events == [] then Reanalyze(s, x, Start(acct), first)
    else Advance(s, x, Run(s, x, acct, first, events[..|events| - 1]), events[|events| - 1])
  }

  // ---- What every run keeps ----

  function MaxOf(scores: seq<Score>): real {
    if scores == [] then 0.0
    else
      var before, last := MaxOf(scores[..|scores| - 1]), scores[|scores| - 1].anomaly;
      if before < last then last else before
  }

  /** A score that blocks its transfer. */
  predicate Blocks(s: Settings, score: Score) {
    score.anomaly >= s.blockThreshold || score.level == Critical
  }

  predicate AnyBlocks(s: Settings, scores: seq<Score>) {
    exists i :: 0 <= i < |scores| && Blocks(s, scores[i])
  }

  /** The four bands of risk, each below the ones before it. */
  predicate Banded(s: Settings, score: Score, risk: Risk) {
    && (risk == BlockedRisk <==> Blocks(s, score))
    && (risk == HighRisk <==> !Blocks(s, score) && (score.anomaly >= 0.6 || score.level == High))
    && (risk == Elevated
        <==> !Blocks(s, score) && score.anomaly < 0.6 && score.level != High
             && (score.anomaly >= 0.35 || score.level == Medium))
    && (risk == Normal <==> !Blocks(s, score) && score.anomaly < 0.35 && score.level == Low)
  }

  ghost predicate TelemetryOk(s: Settings, t: Telemetry, scores: seq<Score>) {
    && t.samples == |scores| <= Max(1, s.maxAnalyses)
    && t.maximum == MaxOf(scores)
    && (t.status.Blocked? <==> AnyBlocks(s, scores))
    && (scores != [] ==>
          var last := scores[|scores| - 1]; t.current == last.anomaly && Banded(s, last, t.risk))
  }

  ghost predicate Inv(s: Settings, st: State) {
    TelemetryOk(s, st.t, st.scores) && CostOk(s, st)
  }

  /** Every charge is accounted for by a score, a wasted analysis or a lost answer. */
  ghost predicate CostOk(s: Settings, st: State) {
    && 0 <= st.spent <= (|st.scores| + st.wasted + st.lost) * s.Cost()
    && st.lost <= (if st.acct.available then 0 else 1)
  }

  lemma Appended(s: Settings, scores: seq<Score>, score: Score)
    ensures MaxOf(scores + [score]) == if MaxOf(scores) < score.anomaly then score.anomaly else MaxOf(scores)
    ensures AnyBlocks(s, scores + [score]) <==> AnyBlocks(s, scores) || Blocks(s, score)
  {
    assert (scores + [score])[..|scores|] == scores;
    assert (scores + [score])[|scores|] == score;
    if AnyBlocks(s, scores) {
      var i :| 0 <= i < |scores| && Blocks(s, scores[i]);
      assert (scores + [score])[i] == scores[i];
    }
  }

  function Count(b: bool): nat {
    if b then 1 else 0
  }

  /** A request charges at most one cost unless an answer is lost, and none unless it is granted. */
  lemma StepCost(acct: Accountant, r: Request, l: Limits)
    requires r.call.cost >= 0
    ensures var y := PrivacyBudget.Step(acct, r, l);
            && 0 <= SpentAt(y.0, r.key) - SpentAt(acct, r.key)
                 <= (Count(y.1.Granted?) + Count(acct.available && r.reply.LostAfter?)) * r.call.cost
            && (y.0.available ==> acct.available && !r.reply.LostAfter?)
  {
    OnRedisCharges(acct, r, l);
    OnLocalCharges(acct, r, l);
    OnLocalCharges(OnRedis(acct, r, l).0, r, l);
  }

  /** An analysis is charged at most once if it is scored or wasted, and once more if an answer is lost. */
  lemma AnalysisCost(s: Settings, x: Transfer, chunks: nat, acct: Accountant, a: Analysis)
    requires s.Cost() >= 0
    ensures var r := AnalyzeTransfer(s, x, chunks, acct, a);
            && 0 <= SpentAt(r.acct, a.key) - SpentAt(acct, a.key)
                 <= (Count(r.score.Some? || r.wasted) + Count(r.lost)) * s.Cost()
            && !(r.score.Some? && r.wasted)
            && (r.acct.available ==> acct.available) && (r.lost ==> acct.available && !r.acct.available)
  {
    StepCost(acct, ChargeOf(s, x, chunks, a), s.Budget());
  }

  lemma AddCosts(spent: int, n: nat, more: int, m: nat, cost: int)
    requires 0 <= spent <= n * cost && 0 <= more <= m * cost
    ensures 0 <= spent + more <= (n + m) * cost
  {
    assert (n + m) * cost == n * cost + m * cost;
  }

  lemma RecordOk(s: Settings, t: Telemetry, scores: seq<Score>, now: real, score: Score)
    requires TelemetryOk(s, t, scores) && |scores| < Max(1, s.maxAnalyses)
    ensures TelemetryOk(s, Record(s, t, now, score), scores + [score])
  {
    Appended(s, scores, score);
  }

  lemma ReanalyzeCost(s: Settings, x: Transfer, st: State, a: Analysis)
    requires s.Cost() >= 0 && CostOk(s, st)
    ensures CostOk(s, Reanalyze(s, x, st, a))
  {
    var r, st' := AnalyzeTransfer(s, x, st.t.chunks, st.acct, a), Reanalyze(s, x, st, a);
    var more := SpentAt(r.acct, a.key) - SpentAt(st.acct, a.key);
    var n, m := |st.scores| + st.wasted + st.lost, Count(r.score.Some? || r.wasted) + Count(r.lost);
    AnalysisCost(s, x, st.t.chunks, st.acct, a);
    AddCosts(st.spent, n, more, m, s.Cost());
    assert |st'.scores| + st'.wasted + st'.lost == n + m;
  }

  lemma ReanalyzeOk(s: Settings, x: Transfer, st: State, a: Analysis)
    requires s.Cost() >= 0 && Inv(s, st) && |st.scores| < Max(1, s.maxAnalyses)
    ensures Inv(s, Reanalyze(s, x, st, a))
  {
    var r := AnalyzeTransfer(s, x, st.t.chunks, st.acct, a);
    ReanalyzeCost(s, x, st, a);
    if r.score.Some? {
      RecordOk(s, st.t, st.scores, a.now, RollingHeuristics(x, st.t.bytes, a.now, r.score.value));
    }
  }

  lemma StepOk(s: Settings, x: Transfer, st: State, e: Event)
    requires s.Cost() >= 0 && Inv(s, st)
    ensures Inv(s, Advance(s, x, st, e))
  {
    if e.Fragment? {
      var next := st.(t := UpdateTelemetry(st.t, e.bytes));
      if ShouldReanalyse(s, next.t, StatusOf(st.acct, e.key, e.reachable), e.now) {
        ReanalyzeOk(s, x, next, e.a);
      }
    }
  }

  /** Over any run: the maximum is over every score taken, the transfer is blocked exactly when some score
      blocked it, and what the sender is charged for it, in both stores together, is bounded by the scores, the
      wasted analyses and the at most one lost answer. */
  lemma {:induction false} EveryRun(s: Settings, x: Transfer, acct: Accountant, first: Analysis, events: seq<Event>)
    requires s.Cost() >= 0
    ensures Inv(s, Run(s, x, acct, first, events))
  {
    if events == [] {
      ReanalyzeOk(s, x, Start(acct), first);
    } else {
      EveryRun(s, x, acct, first, events[..|events| - 1]);
      StepOk(s, x, Run(s, x, acct, first, events[..|events| - 1]), events[|events| - 1]);
    }
  }

  /** A blocked transfer stays blocked, through further analyses and completion. */
  lemma {:induction false} BlockedStays(s: Settings, x: Transfer, acct: Accountant, first: Analysis,
                                        events: seq<Event>, later: seq<Event>)
    requires Run(s, x, acct, first, events).t.status.Blocked?
    ensures Run(s, x, acct, first, events + later).t.status.Blocked?
  {
    if later == [] {
      assert events + later == events;
    } else {
      var n := |later| - 1;
      BlockedStays(s, x, acct, first, events, later[..n]);
      assert (events + later)[..|events| + n] == events + later[..n];
    }
  }

  /** The overlay: a transfer of more than fifty mebibytes that after ten seconds has moved less than a
      twentieth of a mebibyte a second is scored 0.2 higher, up to 1, and its level follows the raised
      score; nothing else changes a score. */
  lemma HeuristicsExactly(x: Transfer, bytes: nat, now: real, base: Score)
    ensures var elapsed := now - x.startedAt;
            var slow := x.fileSize > 52428800 && elapsed > 10.0 && 20.0 * bytes as real < 1048576.0 * elapsed;
            var r := RollingHeuristics(x, bytes, now, base);
            && (!slow ==> r == base)
            && (slow ==>
                  && (r.anomaly == base.anomaly + 0.2 <= 1.0 || r.anomaly == 1.0 < base.anomaly + 0.2)
                  && (r.anomaly >= 0.8 ==> r.level == High)
                  && (0.4 <= r.anomaly < 0.8 ==> r.level == if base.level == High then High else Medium)
                  && (r.anomaly < 0.4 ==> r.level == base.level))
  {
    RateExactly(bytes as real, now - x.startedAt);
  }

  lemma RateExactly(bytes: real, elapsed: real)
    requires bytes >= 0.0
    ensures elapsed > 10.0 ==> (bytes / 1048576.0 / elapsed < 0.05 <==> 20.0 * bytes < 1048576.0 * elapsed)
  {
    if elapsed > 10.0 {
      var rate := bytes / 1048576.0 / elapsed;
      assert bytes / 1048576.0 == rate * elapsed;
      assert bytes == rate * elapsed * 1048576.0;
      Compared(rate, 0.05, elapsed);
    }
  }

  lemma Compared(x: real, y: real, k: real)
    requires k > 0.0
    ensures x < y <==> x * k < y * k
  {
    assert (y - x) * k == y * k - x * k;
  }

  /** When an analysis yields a score, if privacy is on: nothing raised before its charge, and either the
      budget refused it and the policy is open, or it was granted and nothing raised after. */
  lemma ScoredExactly(s: Settings, x: Transfer, chunks: nat, acct: Accountant, a: Analysis)
    requires s.dpEnabled && s.epsilon > 0.0 && !x.media
    ensures var r := AnalyzeTransfer(s, x, chunks, acct, a);
            var refused := PrivacyBudget.Step(acct, ChargeOf(s, x, chunks, a), s.Budget()).1.Exhausted?;
            && (r.score == Some(a.score) <==> !a.raisesBefore && if refused then !s.failClosed else !a.raisesAfter)
            && (r.score.Some? ==> r.score == Some(a.score))
            && (a.raisesBefore ==> r.acct == acct)
            && (!a.raisesBefore ==> r.acct == PrivacyBudget.Step(acct, ChargeOf(s, x, chunks, a), s.Budget()).0)
  {}

  /** A transfer with a media extension is never charged, and never blocked by a threshold above 0.35. */
  lemma {:induction false} MediaIsFree(s: Settings, x: Transfer, acct: Accountant, first: Analysis, events: seq<Event>)
    requires x.media
    ensures var st := Run(s, x, acct, first, events);
            && st.spent == 0 && (forall i :: 0 <= i < |st.scores| ==>
                  st.scores[i].anomaly in {0.15, 0.35} && st.scores[i].level == Low)
            && (s.blockThreshold > 0.35 ==> !st.t.status.Blocked?)
  {
    if events != [] {
      MediaIsFree(s, x, acct, first, events[..|events| - 1]);
    }
  }

  function BytesOf(events: seq<Event>): nat {
    if events == [] then 0
    else
      var e := events[|events| - 1];
      BytesOf(events[..|events| - 1]) + if e.Fragment? then e.bytes else 0
  }

  function FragmentsOf(events: seq<Event>): nat {
    if events == [] then 0
    else FragmentsOf(events[..|events| - 1]) + if events[|events| - 1].Fragment? then 1 else 0
  }

  /** The counters are the fragments seen and their bytes, whatever was analysed. */
  lemma {:induction false} CountersExact(s: Settings, x: Transfer, acct: Accountant, first: Analysis,
                                         events: seq<Event>)
    ensures var t := Run(s, x, acct, first, events).t;
            t.bytes == BytesOf(events) && t.chunks == FragmentsOf(events)
  {
    if events != [] {
      CountersExact(s, x, acct, first, events[..|events| - 1]);
    }
  }

  /** At its end a transfer is blocked if some score blocked it, and completed if none did. */
  lemma CompletionExactly(s: Settings, x: Transfer, acct: Accountant, first: Analysis, events: seq<Event>)
    requires s.Cost() >= 0
    ensures var st := Run(s, x, acct, first, events + [Complete]);
            st.t.status == if AnyBlocks(s, st.scores) then Blocked else Completed
  {
    EveryRun(s, x, acct, first, events);
    assert (events + [Complete])[..|events|] == events;
  }

  // ---- How far apart ----

  /** When the guard lets a fragment's analysis through. The budget is read in millionths; one that is used
      up does not stop the analysis here, but one inside the reserve does. */
  predicate Due(s: Settings, t: Telemetry, consumed: int, now: real) {
    var left := s.totalEpsilon * 1000000.0 - consumed as real;
    var soft := left > 0.0 && s.totalEpsilon != 0.0
        && consumed as real * 100.0 / (s.totalEpsilon * 1000000.0) >= s.softLimitPercent as real;
    && s.enabled && t.samples < s.maxAnalyses
    && (left <= 0.0 || left > s.reservedEpsilon * 1000000.0)
    && (|| t.lastEvaluationAt == 0.0
        || now - t.lastEvaluationAt >= (if soft then 3 * s.intervalSeconds else s.intervalSeconds) as real
        || t.chunks - t.lastEvaluationChunks >= (if soft then 3 * s.everyChunks else s.everyChunks))
  }

  lemma Millionths(total: real, consumed: int, reserved: real)
    ensures (total - consumed as real / 1000000.0 > 0.0 <==> total * 1000000.0 - consumed as real > 0.0)
    ensures (total - consumed as real / 1000000.0 <= reserved
             <==> total * 1000000.0 - consumed as real <= reserved * 1000000.0)
    ensures total != 0.0 ==>
        consumed as real / 1000000.0 / total * 100.0 == consumed as real * 100.0 / (total * 1000000.0)
  {
    assert consumed as real / 1000000.0 * 1000000.0 == consumed as real;
    if total != 0.0 {
      var q := consumed as real / 1000000.0 / total;
      assert q * total == consumed as real / 1000000.0;
      assert q * (total * 1000000.0) == consumed as real;
    }
  }

  lemma GuardExactly(s: Settings, t: Telemetry, status: PrivacyBudget.Status, now: real)
    ensures ShouldReanalyse(s, t, status, now) <==> Due(s, t, status.consumed, now)
  {
    Millionths(s.totalEpsilon, status.consumed, s.reservedEpsilon);
  }

  /** A score: when the guard looked, when it was recorded and after how many fragments. */
  datatype Taken = Taken(guard: real, at: real, chunks: nat)

  function TakenIn(s: Settings, x: Transfer, acct: Accountant, first: Analysis, events: seq<Event>): seq<Taken> {
    if events == [] then
      if Run(s, x, acct, first, []).scores == [] then [] else [Taken(first.now, first.now, 0)]
    else
      var n := |events| - 1;
      var before, e := TakenIn(s, x, acct, first, events[..n]), events[n];
      var st, st' := Run(s, x, acct, first, events[..n]), Run(s, x, acct, first, events);
      if e.Fragment? && |st'.scores| > |st.scores| then before + [Taken(e.now, e.a.now, st'.t.chunks)] else before
  }

  /** The second score was due: at least the interval, or at least the number of fragments, after the first. */
  predicate Apart(s: Settings, first: Taken, second: Taken) {
    || first.at == 0.0
    || second.guard - first.at >= Min(s.intervalSeconds, 3 * s.intervalSeconds) as real
    || second.chunks - first.chunks >= Min(s.everyChunks, 3 * s.everyChunks)
  }

  ghost predicate Spaced(s: Settings, taken: seq<Taken>, st: State) {
    && |taken| == |st.scores|
    && (taken == [] ==> st.t.lastEvaluationAt == 0.0)
    && (taken != [] ==>
          var last := taken[|taken| - 1];
          last.at == st.t.lastEvaluationAt && last.chunks == st.t.lastEvaluationChunks)
    && forall i, j :: 0 <= i && j == i + 1 < |taken| ==> Apart(s, taken[i], taken[j])
  }

  lemma SpacedStep(s: Settings, x: Transfer, taken: seq<Taken>, st: State, e: Event)
    requires Spaced(s, taken, st)
    ensures var st' := Advance(s, x, st, e);
            Spaced(s, if e.Fragment? && |st'.scores| > |st.scores| then taken + [Taken(e.now, e.a.now, st'.t.chunks)]
                   else taken, st')
  {
    var st' := Advance(s, x, st, e);
    if e.Fragment? && |st'.scores| > |st.scores| {
      var next := st.(t := UpdateTelemetry(st.t, e.bytes));
      GuardExactly(s, next.t, StatusOf(st.acct, e.key, e.reachable), e.now);
    }
  }

  /** Over any run: there is one entry for each score, and any score but the first was due. */
  lemma {:induction false} AnalysesApart(s: Settings, x: Transfer, acct: Accountant, first: Analysis,
                                         events: seq<Event>)
    ensures Spaced(s, TakenIn(s, x, acct, first, events), Run(s, x, acct, first, events))
  {
    if events != [] {
      var n := |events| - 1;
      AnalysesApart(s, x, acct, first, events[..n]);
      SpacedStep(s, x, TakenIn(s, x, acct, first, events[..n]), Run(s, x, acct, first, events[..n]), events[n]);
    }
  }

  // ---- Spending ----

  /** What the environment may do in an analysis: raise once the budget is granted, lose an answer. */
  predicate AnalysisAllowed(mayWaste: bool, mayLose: bool, a: Analysis) {
    (a.raisesAfter ==> mayWaste) && (a.reply.LostAfter? ==> mayLose)
  }

  predicate Allowed(mayWaste: bool, mayLose: bool, first: Analysis, events: seq<Event>) {
    && AnalysisAllowed(mayWaste, mayLose, first)
    && forall i :: 0 <= i < |events| && events[i].Fragment? ==> AnalysisAllowed(mayWaste, mayLose, events[i].a)
  }

  lemma {:induction false} NothingElse(s: Settings, x: Transfer, acct: Accountant, first: Analysis, events: seq<Event>,
                                       mayWaste: bool, mayLose: bool)
    requires Allowed(mayWaste, mayLose, first, events)
    ensures !mayWaste ==> Run(s, x, acct, first, events).wasted == 0
    ensures !mayLose ==> Run(s, x, acct, first, events).lost == 0
  {
    if events != [] {
      NothingElse(s, x, acct, first, events[..|events| - 1], mayWaste, mayLose);
    }
  }

  lemma Scaled(spent: int, m: nat, n: nat, k: int)
    requires spent <= m * k && m <= n && k >= 0
    ensures spent <= n * k
  {
    assert n * k == m * k + (n - m) * k;
  }

  /** What one transfer is charged: at most the configured number of analyses (or the one unguarded
      analysis), plus one for every analysis that raised after its budget was granted, plus one if
      the answer of a script was lost, which happens at most once. */
  lemma SpendBound(s: Settings, x: Transfer, acct: Accountant, first: Analysis, events: seq<Event>)
    requires s.Cost() >= 0
    ensures var st := Run(s, x, acct, first, events);
            st.spent <= (Max(1, s.maxAnalyses) + st.wasted + st.lost) * s.Cost() && st.lost <= 1
  {
    EveryRun(s, x, acct, first, events);
    var st := Run(s, x, acct, first, events);
    Scaled(st.spent, |st.scores| + st.wasted + st.lost, Max(1, s.maxAnalyses) + st.wasted + st.lost, s.Cost());
  }

  /** Without a guard that can let anything through, only the first analysis is ever made. */
  lemma {:induction false} OnlyTheFirst(s: Settings, x: Transfer, acct: Accountant, first: Analysis, events: seq<Event>)
    requires !s.enabled || s.maxAnalyses <= 0
    ensures |Run(s, x, acct, first, events).scores| + Run(s, x, acct, first, events).wasted <= 1
  {
    if events == [] {
      assert !(AnalyzeTransfer(s, x, 0, acct, first).score.Some? && AnalyzeTransfer(s, x, 0, acct, first).wasted);
    } else {
      OnlyTheFirst(s, x, acct, first, events[..|events| - 1]);
    }
  }

  predicate Within(s: Settings, st: State) {
    st.spent <= Max(1, s.maxAnalyses) * Max(0, s.Cost())
  }

  /** No store has a negative total, as none has that was reached by charges. */
  ghost predicate NonNegative(acct: Accountant) {
    forall key :: NonNegativeAt(acct, key)
  }

  predicate NonNegativeAt(acct: Accountant, key: string) {
    HGet(HashAt(acct, key), "consumed") >= 0 && LocalAt(acct, key).consumed >= 0
  }

  /** Requests from elsewhere do not cost less than nothing: consume_budget refuses them. */
  predicate ElsewherePays(events: seq<Event>) {
    forall i :: 0 <= i < |events| && events[i].Elsewhere? ==> events[i].request.call.cost >= 0
  }

  ghost predicate Bounded(s: Settings, mayWaste: bool, mayLose: bool, x: Transfer, acct: Accountant, first: Analysis,
                          events: seq<Event>) {
    NonNegative(acct) && ElsewherePays(events) && Allowed(mayWaste, mayLose, first, events) ==>
        Within(s, Run(s, x, acct, first, events))
  }

  /** The settings under which what the environment may do cannot overspend: without a guard that lets
      anything through a wasted analysis is the only one, and a lost answer is within a limit of two. */
  predicate Safe(s: Settings, mayWaste: bool, mayLose: bool) {
    && (mayWaste ==> !s.enabled || s.maxAnalyses <= 0)
    && (mayLose ==> !s.enabled && s.maxAnalyses >= 2)
  }

  lemma StaysWithin(s: Settings, mayWaste: bool, mayLose: bool, x: Transfer, acct: Accountant, first: Analysis,
                    events: seq<Event>)
    requires s.Cost() >= 0 && Safe(s, mayWaste, mayLose)
    ensures Bounded(s, mayWaste, mayLose, x, acct, first, events)
  {
    if Allowed(mayWaste, mayLose, first, events) {
      NothingElse(s, x, acct, first, events, mayWaste, mayLose);
      EveryRun(s, x, acct, first, events);
      if mayWaste || mayLose {
        OnlyTheFirst(s, x, acct, first, events);
      }
      FewEnough(s, mayWaste, mayLose, Run(s, x, acct, first, events));
    }
  }

  lemma FewEnough(s: Settings, mayWaste: bool, mayLose: bool, st: State)
    requires s.Cost() >= 0 && Safe(s, mayWaste, mayLose) && Inv(s, st)
    requires (mayWaste || st.wasted == 0) && (mayLose || st.lost == 0)
    requires mayWaste || mayLose ==> |st.scores| + st.wasted <= 1
    ensures Within(s, st)
  {
    Scaled(st.spent, |st.scores| + st.wasted + st.lost, Max(1, s.maxAnalyses), s.Cost());
  }

  // ---- Runs that spend nothing ----

  /** Privacy is on, analyses cost something, and an unspent budget above the reserve covers one. */
  predicate Chargeable(s: Settings) {
    s.dpEnabled && s.Cost() > 0 && s.Budget().max - s.Budget().reserved >= s.Cost()
  }

  lemma StepNonNegative(acct: Accountant, r: Request, l: Limits)
    requires NonNegative(acct) && r.call.cost >= 0
    ensures NonNegative(PrivacyBudget.Step(acct, r, l).0)
  {
    OnRedisCharges(acct, r, l);
    OnLocalCharges(acct, r, l);
    OnLocalCharges(OnRedis(acct, r, l).0, r, l);
    forall key ensures NonNegativeAt(PrivacyBudget.Step(acct, r, l).0, key) {
      assert NonNegativeAt(acct, key) && NonNegativeAt(acct, r.key);
    }
  }

  lemma AnalysisFree(s: Settings, x: Transfer, chunks: nat, acct: Accountant, a: Analysis)
    requires NonNegative(acct) && !Chargeable(s)
    ensures var acct' := AnalyzeTransfer(s, x, chunks, acct, a).acct;
            NonNegative(acct') && SpentAt(acct', a.key) == SpentAt(acct, a.key)
  {
    var r, l := ChargeOf(s, x, chunks, a), s.Budget();
    if s.epsilon > 0.0 {
      assert NonNegativeAt(acct, a.key);
      MonitorsArePeriodic(x, chunks, a.suffix);
      StepNonNegative(acct, r, l);
      OnRedisCharges(acct, r, l);
      OnLocalCharges(acct, r, l);
      OnLocalCharges(OnRedis(acct, r, l).0, r, l);
    }
  }

  /** A budget that does not cover one analysis above the reserve is not charged at all. */
  lemma {:induction false} NothingCharged(s: Settings, x: Transfer, acct: Accountant, first: Analysis,
                                          events: seq<Event>)
    requires !Chargeable(s) && NonNegative(acct) && ElsewherePays(events)
    ensures Run(s, x, acct, first, events).spent == 0 && NonNegative(Run(s, x, acct, first, events).acct)
  {
    if events == [] {
      AnalysisFree(s, x, 0, acct, first);
    } else {
      var n := |events| - 1;
      NothingCharged(s, x, acct, first, events[..n]);
      StepFree(s, x, Run(s, x, acct, first, events[..n]), events[n]);
    }
  }

  lemma StepFree(s: Settings, x: Transfer, st: State, e: Event)
    requires !Chargeable(s) && NonNegative(st.acct) && (e.Elsewhere? ==> e.request.call.cost >= 0)
    ensures Advance(s, x, st, e).spent == st.spent && NonNegative(Advance(s, x, st, e).acct)
  {
    match e
    case Fragment(_, _, _, _, a) => AnalysisFree(s, x, st.t.chunks + 1, st.acct, a);
    case Elsewhere(request) => StepNonNegative(st.acct, request, s.Budget());
    case Complete =>
  }

  // ---- Runs that spend more ----

  /** The cost of n analyses. */
  function Paid(s: Settings, n: nat): int {
    if n == 0 then 0 else Paid(s, n - 1) + s.Cost()
  }

  lemma {:induction false} PaidIs(s: Settings, n: nat)
    ensures Paid(s, n) == n * s.Cost()
  {
    if n > 0 {
      PaidIs(s, n - 1);
    }
  }

  const NOTHING_YET := Accountant(true, map[], map[], [], [])

  /** Long enough for the guard, in any mode. */
  function Pause(s: Settings): real {
    (3 * Max(s.intervalSeconds, 0) + 1) as real
  }

  /** The time after k pauses. */
  function At(s: Settings, k: nat): real {
    if k == 0 then 0.0 else At(s, k - 1) + Pause(s)
  }

  /** Each analysis under a budget key of its own, as when it falls in another epoch. */
  function Plain(k: nat, s: Settings): Analysis {
    Analysis(Str(k), "", At(s, k), Answered, Score(0.0, Low), false, false)
  }

  /** Fragment k of a transfer, a pause after fragment k - 1. */
  function Tick(s: Settings, reachable: bool, k: nat): Event {
    Fragment(1, Str(k), reachable, At(s, k), Plain(k, s))
  }

  function Ticks(s: Settings, reachable: bool, m: nat): seq<Event> {
    if m == 0 then [] else Ticks(s, reachable, m - 1) + [Tick(s, reachable, m)]
  }

  lemma {:induction false} TicksAllowed(s: Settings, reachable: bool, m: nat)
    ensures |Ticks(s, reachable, m)| == m
    ensures forall i :: 0 <= i < m ==>
        Ticks(s, reachable, m)[i].Fragment? && AnalysisAllowed(false, false, Ticks(s, reachable, m)[i].a)
  {
    if m > 0 {
      TicksAllowed(s, reachable, m - 1);
    }
  }

  predicate Fresh(acct: Accountant, key: string) {
    key !in acct.hashes && key !in acct.locals
  }

  /** After m fragments with this many samples and charges. */
  ghost predicate Ticked(s: Settings, st: State, m: nat, samples: nat, charges: nat) {
    && st.t.chunks == m && st.t.samples == samples && st.t.lastEvaluationAt == At(s, m)
    && st.spent == Paid(s, charges)
    && forall j: nat :: j > m ==> Fresh(st.acct, Str(j))
  }

  /** A request makes no other key. */
  lemma StepFresh(acct: Accountant, r: Request, l: Limits, key: string)
    requires Fresh(acct, key) && key != r.key
    ensures Fresh(PrivacyBudget.Step(acct, r, l).0, key)
  {}

  lemma LaterFresh(acct: Accountant, r: Request, l: Limits, m: nat)
    requires r.key == Str(m) && forall j: nat :: j > m ==> Fresh(acct, Str(j))
    ensures forall j: nat :: j > m ==> Fresh(PrivacyBudget.Step(acct, r, l).0, Str(j))
  {
    forall j: nat | j > m ensures Fresh(PrivacyBudget.Step(acct, r, l).0, Str(j)) {
      if Str(j) == r.key {
        StrInjective(j, m);
      }
      StepFresh(acct, r, l, Str(j));
    }
  }

  lemma CostsPositive(s: Settings)
    requires s.Cost() > 0
    ensures s.epsilon > 0.0
  {}

  /** What lies above the reserve in whole millionths lies above it. */
  lemma AboveReserve(s: Settings)
    requires s.Budget().max > s.Budget().reserved
    ensures s.totalEpsilon > s.reservedEpsilon
  {}

  lemma GuardAllows(s: Settings, t: Telemetry, status: PrivacyBudget.Status, now: real)
    requires s.enabled && t.samples < s.maxAnalyses && now == t.lastEvaluationAt + Pause(s)
    requires Chargeable(s) && status.consumed == 0
    ensures ShouldReanalyse(s, t, status, now)
  {
    AboveReserve(s);
  }

  /** An affordable analysis under a new key with nothing going wrong. */
  lemma ScoredOnce(s: Settings, x: Transfer, st: State, a: Analysis)
    requires Chargeable(s) && !x.media && !a.raisesBefore && !a.raisesAfter && Fresh(st.acct, a.key)
    requires st.acct.available ==> a.reply.Answered?
    ensures var st', r := Reanalyze(s, x, st, a), ChargeOf(s, x, st.t.chunks, a);
            && st'.t.chunks == st.t.chunks && st'.t.samples == st.t.samples + 1 && st'.t.lastEvaluationAt == a.now
            && st'.spent == st.spent + s.Cost() && st'.acct.available == st.acct.available
            && st'.acct == PrivacyBudget.Step(st.acct, r, s.Budget()).0
  {
    CostsPositive(s);
    MonitorsArePeriodic(x, st.t.chunks, a.suffix);
    PlainStep(st.acct, ChargeOf(s, x, st.t.chunks, a), s.Budget());
    var r := AnalyzeTransfer(s, x, st.t.chunks, st.acct, a);
    assert r == Analysed(PrivacyBudget.Step(st.acct, ChargeOf(s, x, st.t.chunks, a), s.Budget()).0, Some(a.score),
                         false, false);
  }

  /** One more fragment is analysed, scored and charged. */
  lemma TickScores(s: Settings, x: Transfer, st: State, m: nat, samples: nat, charges: nat)
    requires Chargeable(s) && s.enabled && !x.media && Ticked(s, st, m, samples, charges) && samples < s.maxAnalyses
    ensures Ticked(s, Advance(s, x, st, Tick(s, st.acct.available, m + 1)), m + 1, samples + 1, charges + 1)
    ensures Advance(s, x, st, Tick(s, st.acct.available, m + 1)).acct.available == st.acct.available
  {
    var next := st.(t := UpdateTelemetry(st.t, 1));
    var a := Plain(m + 1, s);
    assert Fresh(st.acct, a.key);
    GuardAllows(s, next.t, StatusOf(st.acct, a.key, st.acct.available), At(s, m + 1));
    assert Advance(s, x, st, Tick(s, st.acct.available, m + 1)) == Reanalyze(s, x, next, a);
    ScoredOnce(s, x, next, a);
    LaterFresh(st.acct, ChargeOf(s, x, m + 1, a), s.Budget(), m + 1);
  }

  function AfterTicks(s: Settings, x: Transfer, st: State, reachable: bool, m: nat): State {
    if m == 0 then st else Advance(s, x, AfterTicks(s, x, st, reachable, m - 1), Tick(s, reachable, m))
  }

  lemma {:induction false} TicksRun(s: Settings, x: Transfer, acct: Accountant, first: Analysis, reachable: bool,
                                    m: nat)
    ensures Run(s, x, acct, first, Ticks(s, reachable, m)) == AfterTicks(s, x, Run(s, x, acct, first, []), reachable, m)
  {
    if m > 0 {
      TicksRun(s, x, acct, first, reachable, m - 1);
      RunStep(s, x, acct, first, Ticks(s, reachable, m - 1), Tick(s, reachable, m));
    }
  }

  lemma RunStep(s: Settings, x: Transfer, acct: Accountant, first: Analysis, events: seq<Event>, e: Event)
    ensures Run(s, x, acct, first, events + [e]) == Advance(s, x, Run(s, x, acct, first, events), e)
  {
    assert (events + [e])[..|events|] == events;
  }

  lemma OneTick(s: Settings, x: Transfer, st: State, m: nat, samples: nat, charges: nat) returns (end: State)
    requires Chargeable(s) && s.enabled && !x.media && m > 0 && samples + m <= s.maxAnalyses
    requires Ticked(s, st, m - 1, samples + m - 1, charges + m - 1)
    ensures end == Advance(s, x, st, Tick(s, st.acct.available, m)) && end.acct.available == st.acct.available
    ensures Ticked(s, end, m, samples + m, charges + m)
  {
    TickScores(s, x, st, m - 1, samples + m - 1, charges + m - 1);
    end := Advance(s, x, st, Tick(s, st.acct.available, m));
  }

  lemma {:induction false} TicksScore(s: Settings, x: Transfer, st: State, m: nat, samples: nat, charges: nat)
    returns (end: State)
    requires Chargeable(s) && (m > 0 ==> s.enabled && samples + m <= s.maxAnalyses) && !x.media
    requires Ticked(s, st, 0, samples, charges)
    ensures end == AfterTicks(s, x, st, st.acct.available, m) && end.acct.available == st.acct.available
    ensures Ticked(s, end, m, samples + m, charges + m)
  {
    if m == 0 {
      return st;
    }
    var before := TicksScore(s, x, st, m - 1, samples, charges);
    end := OneTick(s, x, before, m, samples, charges);
  }

  /** The first analysis of a transfer, wasted: charged once and not a sample. */
  lemma FirstWasted(s: Settings, x: Transfer) returns (st: State)
    requires Chargeable(s) && !x.media
    ensures st == Run(s, x, NOTHING_YET, Plain(0, s).(raisesAfter := true), [])
    ensures Ticked(s, st, 0, 0, 1) && st.acct.available
  {
    var first := Plain(0, s).(raisesAfter := true);
    CostsPositive(s);
    MonitorsArePeriodic(x, 0, "");
    PlainStep(NOTHING_YET, ChargeOf(s, x, 0, first), s.Budget());
    LaterFresh(NOTHING_YET, ChargeOf(s, x, 0, first), s.Budget(), 0);
    PaidIs(s, 1);
    st := Run(s, x, NOTHING_YET, first, []);
  }

  /** The first analysis of a transfer, with its answer lost: a sample, and charged twice. */
  lemma FirstLost(s: Settings, x: Transfer) returns (st: State)
    requires Chargeable(s) && !x.media
    ensures st == Run(s, x, NOTHING_YET, Plain(0, s).(reply := LostAfter), [])
    ensures Ticked(s, st, 0, 1, 2) && !st.acct.available
  {
    var first := Plain(0, s).(reply := LostAfter);
    CostsPositive(s);
    MonitorsArePeriodic(x, 0, "");
    LostStep(NOTHING_YET, ChargeOf(s, x, 0, first), s.Budget());
    LaterFresh(NOTHING_YET, ChargeOf(s, x, 0, first), s.Budget(), 0);
    PaidIs(s, 1);
    PaidIs(s, 2);
    st := Run(s, x, NOTHING_YET, first, []);
  }

  lemma WastedRun(s: Settings, x: Transfer) returns (end: State)
    requires Chargeable(s) && s.enabled && s.maxAnalyses >= 1 && !x.media
    ensures end == AfterTicks(s, x, Run(s, x, NOTHING_YET, Plain(0, s).(raisesAfter := true), []), true, s.maxAnalyses)
    ensures end.spent == Paid(s, s.maxAnalyses + 1)
  {
    var st := FirstWasted(s, x);
    end := TicksScore(s, x, st, s.maxAnalyses, 0, 1);
  }

  lemma LostRun(s: Settings, x: Transfer, n: nat) returns (end: State)
    requires Chargeable(s) && !x.media && (n > 0 ==> s.enabled && n < s.maxAnalyses)
    ensures end == AfterTicks(s, x, Run(s, x, NOTHING_YET, Plain(0, s).(reply := LostAfter), []), false, n)
    ensures end.spent == Paid(s, 2 + n)
  {
    var st := FirstLost(s, x);
    end := TicksScore(s, x, st, n, 1, 2);
  }

  /** An analysis that raises once granted does not count as a sample, so the full number of analyses
      follows it: charged one too many, for every limit and every budget that is charged at all. */
  lemma RaisedEscape(s: Settings, x: Transfer) returns (first: Analysis, events: seq<Event>)
    requires Chargeable(s) && s.enabled && s.maxAnalyses >= 1 && !x.media
    ensures Allowed(true, false, first, events) && ElsewherePays(events)
    ensures Run(s, x, NOTHING_YET, first, events).spent == Paid(s, s.maxAnalyses + 1)
  {
    first := Plain(0, s).(raisesAfter := true);
    events := Ticks(s, true, s.maxAnalyses);
    TicksAllowed(s, true, s.maxAnalyses);
    TicksRun(s, x, NOTHING_YET, first, true, s.maxAnalyses);
    var end := WastedRun(s, x);
  }

  /** An analysis whose answer is lost is charged in Redis and in the process, for every limit and every
      budget that is charged at all. */
  lemma LostEscape(s: Settings, x: Transfer) returns (first: Analysis, events: seq<Event>)
    requires Chargeable(s) && !x.media && (s.enabled || s.maxAnalyses <= 1)
    ensures Allowed(false, true, first, events) && ElsewherePays(events)
    ensures Run(s, x, NOTHING_YET, first, events).spent == Paid(s, Max(1, s.maxAnalyses) + 1)
  {
    first := Plain(0, s).(reply := LostAfter);
    var n := Max(1, s.maxAnalyses) - 1;
    events := Ticks(s, false, n);
    TicksAllowed(s, false, n);
    TicksRun(s, x, NOTHING_YET, first, false, n);
    var end := LostRun(s, x, n);
  }

  /** For every setting: whatever the transfer, the accountant, the analyses and the events, what one
      transfer is charged stays within the configured number of analyses exactly when no analysis can
      raise after its grant and no answer can be lost, or the settings rule the effect out, or the budget
      does not cover a single analysis above the reserve. */
  lemma WithinExactly(s: Settings, mayWaste: bool, mayLose: bool)
    ensures (forall x, acct, first, events {:trigger Bounded(s, mayWaste, mayLose, x, acct, first, events)} ::
              Bounded(s, mayWaste, mayLose, x, acct, first, events))
       <==> Safe(s, mayWaste, mayLose) || !Chargeable(s)
  {
    if !Chargeable(s) {
      forall x, acct, first, events ensures Bounded(s, mayWaste, mayLose, x, acct, first, events) {
        FreeStaysWithin(s, mayWaste, mayLose, x, acct, first, events);
      }
    } else if Safe(s, mayWaste, mayLose) {
      forall x, acct, first, events ensures Bounded(s, mayWaste, mayLose, x, acct, first, events) {
        StaysWithin(s, mayWaste, mayLose, x, acct, first, events);
      }
    } else {
      var x, first, events := Escape(s, mayWaste, mayLose);
    }
  }

  lemma FreeStaysWithin(s: Settings, mayWaste: bool, mayLose: bool, x: Transfer, acct: Accountant, first: Analysis,
                        events: seq<Event>)
    requires !Chargeable(s)
    ensures Bounded(s, mayWaste, mayLose, x, acct, first, events)
  {
    if NonNegative(acct) && ElsewherePays(events) {
      NothingCharged(s, x, acct, first, events);
      Scaled(0, 0, Max(1, s.maxAnalyses), Max(0, s.Cost()));
    }
  }

  /** Settings that are not safe have a run that is charged too much. */
  lemma Escape(s: Settings, mayWaste: bool, mayLose: bool)
    returns (x: Transfer, first: Analysis, events: seq<Event>)
    requires Chargeable(s) && !Safe(s, mayWaste, mayLose)
    ensures !Bounded(s, mayWaste, mayLose, x, NOTHING_YET, first, events)
  {
    x := Transfer("t", 0, 0.0, false);
    if mayWaste && s.enabled && s.maxAnalyses >= 1 {
      first, events := RaisedEscape(s, x);
    } else {
      first, events := LostEscape(s, x);
    }
    PaidIs(s, Max(1, s.maxAnalyses));
    assert Allowed(mayWaste, mayLose, first, events);
  }

  // ---- The reserve ----

  /** A store's total for every key is as it was or leaves the reserve. */
  ghost predicate KeepsReserve(s: Settings, before: Accountant, after: Accountant) {
    forall key :: TotalKept(s, HGet(HashAt(before, key), "consumed"), HGet(HashAt(after, key), "consumed"))
               && TotalKept(s, LocalAt(before, key).consumed, LocalAt(after, key).consumed)
  }

  predicate TotalKept(s: Settings, before: int, after: int) {
    after == before || s.Budget().max - after >= s.Budget().reserved
  }

  lemma PeriodicKeepsReserve(s: Settings, acct: Accountant, r: Request)
    requires r.call.cls == Periodic
    ensures KeepsReserve(s, acct, PrivacyBudget.Step(acct, r, s.Budget()).0)
  {
    OnRedisCharges(acct, r, s.Budget());
    OnLocalCharges(acct, r, s.Budget());
    OnLocalCharges(OnRedis(acct, r, s.Budget()).0, r, s.Budget());
  }

  /** Every charge a monitor makes leaves the reserve in the store that is charged. */
  lemma ReserveLeft(s: Settings, x: Transfer, chunks: nat, acct: Accountant, a: Analysis)
    ensures KeepsReserve(s, acct, AnalyzeTransfer(s, x, chunks, acct, a).acct)
  {
    MonitorsArePeriodic(x, chunks, a.suffix);
    PeriodicKeepsReserve(s, acct, ChargeOf(s, x, chunks, a));
  }

  /** No store has been charged into the reserve for any key. */
  ghost predicate ReserveUntouched(s: Settings, acct: Accountant) {
    forall key :: HGet(HashAt(acct, key), "consumed") <= Max(0, s.Budget().max - s.Budget().reserved)
               && LocalAt(acct, key).consumed <= Max(0, s.Budget().max - s.Budget().reserved)
  }

  lemma StillUntouched(s: Settings, before: Accountant, after: Accountant)
    requires ReserveUntouched(s, before) && KeepsReserve(s, before, after)
    ensures ReserveUntouched(s, after)
  {
    forall key ensures HGet(HashAt(after, key), "consumed") <= Max(0, s.Budget().max - s.Budget().reserved)
                    && LocalAt(after, key).consumed <= Max(0, s.Budget().max - s.Budget().reserved)
    {
      assert TotalKept(s, HGet(HashAt(before, key), "consumed"), HGet(HashAt(after, key), "consumed"));
      assert TotalKept(s, LocalAt(before, key).consumed, LocalAt(after, key).consumed);
    }
  }

  /** What the rest of the system asks of the accountant is periodic too. */
  predicate OnlyPeriodic(events: seq<Event>) {
    forall i :: 0 <= i < |events| && events[i].Elsewhere? ==> events[i].request.call.cls == Periodic
  }

  /** However many monitors share the accountant, and through any failover, alone they never touch the
      reserve of either store. */
  lemma {:induction false} MonitorsKeepReserve(s: Settings, x: Transfer, acct: Accountant, first: Analysis,
                                               events: seq<Event>)
    requires OnlyPeriodic(events) && ReserveUntouched(s, acct)
    ensures ReserveUntouched(s, Run(s, x, acct, first, events).acct)
  {
    if events == [] {
      ReserveLeft(s, x, 0, acct, first);
      StillUntouched(s, acct, AnalyzeTransfer(s, x, 0, acct, first).acct);
    } else {
      var n := |events| - 1;
      MonitorsKeepReserve(s, x, acct, first, events[..n]);
      var st, e := Run(s, x, acct, first, events[..n]), events[n];
      match e
      case Fragment(_, _, _, _, a) =>
        ReserveLeft(s, x, st.t.chunks + 1, st.acct, a);
        StillUntouched(s, st.acct, AnalyzeTransfer(s, x, st.t.chunks + 1, st.acct, a).acct);
      case Elsewhere(request) =>
        PeriodicKeepsReserve(s, st.acct, request);
        StillUntouched(s, st.acct, PrivacyBudget.Step(st.acct, request, s.Budget()).0);
      case Complete =>
    }
  }

  // ---- The monitor ----

  class ContinuousTransferMonitor {
    const settings: Settings
    const transfer: Transfer
    const senderId: string
    const accountant: PrivacyBudgetAccountant
    var telemetry: Telemetry
    ghost var scores: seq<Score>
    ghost var spent: int
    ghost var wasted: nat
    ghost var lost: nat

    ghost function View(): State
      reads this, accountant, accountant.redis
    {
      State(telemetry, accountant.View(), scores, spent, wasted, lost)
    }

    /** The monitor and the accountant are configured alike. */
    predicate Configured() {
      accountant.settings.epochHours > 0 && accountant.Budget() == settings.Budget()
    }

    /** The sender's budget key at this time. */
    predicate KeyAt(now: real, key: string)
      requires Configured()
    {
      now >= 0.0 && Epoch(now, accountant.settings.epochHours).0 >= 0
      && key == BudgetKey(senderId, Epoch(now, accountant.settings.epochHours).0)
    }

    constructor (settings: Settings, transfer: Transfer, senderId: string, accountant: PrivacyBudgetAccountant)
      ensures this.settings == settings && this.transfer == transfer && this.senderId == senderId
          && this.accountant == accountant
      ensures View() == Start(accountant.View())
    {
      this.settings, this.transfer, this.senderId, this.accountant := settings, transfer, senderId, accountant;
      telemetry, scores, spent, wasted, lost := NEW_TELEMETRY, [], 0, 0, 0;
    }

    /** analyze_transfer with its charge; None is the exception. */
    method AnalyzeFor(a: Analysis) returns (score: Option<Score>, ghost r: Analysed)
      requires Configured() && KeyAt(a.now, a.key)
      modifies accountant, accountant.redis
      ensures r == AnalyzeTransfer(settings, transfer, telemetry.chunks, old(accountant.View()), a)
      ensures accountant.View() == r.acct && score == r.score
    {
      r := AnalyzeTransfer(settings, transfer, telemetry.chunks, accountant.View(), a);
      if transfer.media {
        return Some(Score(0.15, Low)), r;
      }
      if a.raisesBefore {
        return None, r;
      }
      if settings.dpEnabled {
        var id := AnalysisId(transfer, telemetry.chunks, a.suffix);
        var o := accountant.ConsumeBudget(senderId, settings.epsilon, id, ClassOf(id), a.now, a.reply);
        if o.None? {
          return None, r;
        }
        if o.value.Exhausted? {
          return (if settings.failClosed then None else Some(a.score)), r;
        }
      }
      return (if a.raisesAfter then None else Some(a.score)), r;
    }

    /** The charge with its history. */
    method ChargeFor(a: Analysis) returns (score: Option<Score>)
      requires Configured() && KeyAt(a.now, a.key)
      modifies this, accountant, accountant.redis
      ensures telemetry == old(telemetry) && scores == old(scores)
      ensures var r := AnalyzeTransfer(settings, transfer, old(telemetry).chunks, old(accountant.View()), a);
              && score == r.score && accountant.View() == r.acct
              && spent == old(spent) + SpentAt(r.acct, a.key) - SpentAt(old(accountant.View()), a.key)
              && wasted == (if r.wasted then old(wasted) + 1 else old(wasted))
              && lost == (if r.lost then old(lost) + 1 else old(lost))
    {
      ghost var before := accountant.View();
      ghost var r;
      score, r := AnalyzeFor(a);
      spent := spent + SpentAt(accountant.View(), a.key) - SpentAt(before, a.key);
      wasted := if r.wasted then wasted + 1 else wasted;
      lost := if r.lost then lost + 1 else lost;
    }

    /** reanalyze_transfer; None is the exception. */
    method ReanalyzeTransfer(a: Analysis) returns (score: Option<Score>)
      requires Configured() && KeyAt(a.now, a.key)
      modifies this, accountant, accountant.redis
      ensures View() == Reanalyze(settings, transfer, old(View()), a)
      ensures scores == if score.Some? then old(scores) + [score.value] else old(scores)
    {
      var base := ChargeFor(a);
      if base.None? {
        return None;
      }
      var s := RollingHeuristics(transfer, telemetry.bytes, a.now, base.value);
      RecordScore(s, a.now);
      scores := scores + [s];
      return Some(s);
    }

    method RecordScore(s: Score, now: real)
      modifies this`telemetry
      ensures telemetry == Record(settings, old(telemetry), now, s)
    {
      telemetry := telemetry.(current := s.anomaly);
      if telemetry.maximum < s.anomaly {
        telemetry := telemetry.(maximum := s.anomaly);
      }
      telemetry := telemetry.(lastEvaluationAt := now, lastEvaluationChunks := telemetry.chunks,
                              samples := telemetry.samples + 1);
      telemetry := telemetry.(risk := RiskOf(settings, s));
      if telemetry.risk == BlockedRisk {
        telemetry := telemetry.(status := Blocked);
      }
    }

    /** One fragment of the upload loop. */
    method Observe(bytes: nat, reachable: bool, now: real, a: Analysis, ghost key: string)
      requires Configured() && KeyAt(a.now, a.key) && KeyAt(now, key)
      modifies this, accountant, accountant.redis
      ensures View() == Advance(settings, transfer, old(View()), Fragment(bytes, key, reachable, now, a))
    {
      telemetry := telemetry.(bytes := telemetry.bytes + bytes);
      telemetry := telemetry.(chunks := telemetry.chunks + 1);
      var status := accountant.GetBudgetStatus(senderId, now, reachable);
      if ShouldReanalyse(settings, telemetry, status, now) {
        var score := ReanalyzeTransfer(a);
      }
    }

    method CompleteMonitoring()
      modifies this
      ensures View() == Advance(settings, transfer, old(View()), Complete)
    {
      if !telemetry.status.Blocked? {
        telemetry := telemetry.(status := Completed);
      }
    }
  }
}
