// The replay check on internal service tokens: every accepted JTI is remembered
// for sixty seconds, in Redis or in a dictionary of the process, and then dropped.

module ReplayCache {
  import opened Basics
  import opened Text

  /** The claims verify_internal_token reads; a missing claim is None. */
  datatype Token = Token(jti: Option<string>, exp: real, service: Option<string>,
                         reqMethod: Option<string>, reqPath: Option<string>)

  /** jwt.decode under the shared secret, up to the expiry check, and the kind of environment. */
  datatype Auth = Auth(decode: string -> Option<Token>, development: bool)

  /** What get_redis and the SET come back with: no client, an error before the SET ran, an error
      after it ran, or an answer. */
  datatype Redis = NoClient | Failing | Lost | Up

  datatype Request = Request(authorization: Option<string>, reqMethod: string, reqPath: string, now: real, redis: Redis)

  datatype Store = Local | Shared

  /** One JTI written to a store. */
  datatype Pass = Pass(jti: string, store: Store)

  /** Expiry times of remembered JTIs, and as history every JTI ever written to a store and every
      JTI ever let past by one. */
  datatype State = State(local: map<string, real>, shared: map<string, real>, recorded: seq<Pass>, passes: seq<Pass>)

  datatype Verdict = Accepted | Refused(status: nat)

  const LIFE: real := 60.0

  /** The token's claims once header, signature, audience, issuer, expiry and JTI have been checked. */
  function Presented(a: Auth, r: Request): Result<Token, nat> {
    if r.authorization.None? || !StartsWith(r.authorization.value, "Bearer ") then Err(401)
    else
      var decoded := a.decode(UpTo(r.authorization.value[7..], ' '));
      if decoded.None? || decoded.value.exp <= r.now then Err(401)
      else if decoded.value.jti.None? || decoded.value.jti.value == "" then Err(401)
      else Ok(decoded.value)
  }

  /** The store whose answer decides a request, if any. */
  function StoreFor(a: Auth, redis: Redis): Option<Store> {
    if redis.Up? then Some(Shared) else if a.development then Some(Local) else None
  }

  function Context(t: Token, r: Request): Verdict {
    if t.service != Some("node-api") then Refused(403)
    else if t.reqMethod.Some? && t.reqMethod.value != "*" && t.reqMethod.value != r.reqMethod then Refused(403)
    else if t.reqPath.Some? && t.reqPath.value != "*" && t.reqPath.value != r.reqPath then Refused(403)
    else Accepted
  }

  function Cleaned(local: map<string, real>, now: real): map<string, real> {
    map jti | jti in local && now <= local[jti] :: local[jti]
  }

  /** Whether the store still remembers the JTI; a Redis key is gone once its expiry is reached. */
  predicate Remembered(st: State, store: Store, jti: string, now: real) {
    match store
    case Local => jti in st.local
    case Shared => jti in st.shared && now < st.shared[jti]
  }

  /** SET with NX, or the insertion into the dictionary. */
  function Record(st: State, store: Store, jti: string, now: real): State {
    match store
    case Local => st.(local := st.local[jti := now + LIFE], recorded := st.recorded + [Pass(jti, Local)])
    case Shared => st.(shared := st.shared[jti := now + LIFE], recorded := st.recorded + [Pass(jti, Shared)])
  }

  /** The check and the insertion in one store, which lets the JTI past when it is new. */
  function Admit(st: State, store: Store, t: Token, r: Request): (State, Verdict)
    requires t.jti.Some?
  {
    var jti := t.jti.value;
    if Remembered(st, store, jti, r.now) then (st, Refused(401))
    else
      var written := Record(st, store, jti, r.now);
      (written.(passes := written.passes + [Pass(jti, store)]), Context(t, r))
  }

  /** A SET whose answer never arrives. */
  function WriteBlind(st: State, jti: string, now: real): State {
    if Remembered(st, Shared, jti, now) then st else Record(st, Shared, jti, now)
  }

  /** Without an answer from Redis: the dictionary in development, refusal otherwise. */
  function Fallback(a: Auth, st: State, t: Token, r: Request): (State, Verdict)
    requires t.jti.Some?
  {
    if a.development then Admit(st, Local, t, r) else (st, Refused(500))
  }

  function Step(a: Auth, st: State, r: Request): (State, Verdict) {
    match Presented(a, r)
    case Err(status) => (st, Refused(status))
    case Ok(t) =>
      var cleaned := st.(local := Cleaned(st.local, r.now));
      match r.redis
      case Up => Admit(cleaned, Shared, t, r)
      case Lost => Fallback(a, WriteBlind(cleaned, t.jti.value, r.now), t, r)
      case _ => Fallback(a, cleaned, t, r)
  }

  function Run(a: Auth, requests: seq<Request>): State {
    if requests == [] then State(map[], map[], [], [])
    else Step(a, Run(a, requests[..|requests| - 1]), requests[|requests| - 1]).0
  }

  // ---- The check that never forgets ----

  /** Every JTI ever written to a store, and every JTI ever let past by one. */
  datatype History = History(recorded: seq<Pass>, passes: seq<Pass>)

  function HistoryOf(st: State): History {
    History(st.recorded, st.passes)
  }

  function IdealAdmit(h: History, store: Store, t: Token, r: Request): (History, Verdict)
    requires t.jti.Some?
  {
    var p := Pass(t.jti.value, store);
    if p in h.recorded then (h, Refused(401)) else (History(h.recorded + [p], h.passes + [p]), Context(t, r))
  }

  function IdealWrite(h: History, jti: string): History {
    var p := Pass(jti, Shared);
    if p in h.recorded then h else h.(recorded := h.recorded + [p])
  }

  function IdealFallback(a: Auth, h: History, t: Token, r: Request): (History, Verdict)
    requires t.jti.Some?
  {
    if a.development then IdealAdmit(h, Local, t, r) else (h, Refused(500))
  }

  /** The same check against every JTI ever written. */
  function Ideal(a: Auth, h: History, r: Request): (History, Verdict) {
    match Presented(a, r)
    case Err(status) => (h, Refused(status))
    case Ok(t) =>
      match r.redis
      case Up => IdealAdmit(h, Shared, t, r)
      case Lost => IdealFallback(a, IdealWrite(h, t.jti.value), t, r)
      case _ => IdealFallback(a, h, t, r)
  }

  function IdealRun(a: Auth, requests: seq<Request>): History {
    if requests == [] then History([], [])
    else Ideal(a, IdealRun(a, requests[..|requests| - 1]), requests[|requests| - 1]).0
  }

  // ---- Hypotheses ----

  /** Every token that decodes expires `lifetime` after its JTI was issued. */
  ghost predicate Minted(a: Auth, issued: string -> real, lifetime: real) {
    forall s :: MintedToken(a.decode(s), issued, lifetime)
  }

  predicate MintedToken(t: Option<Token>, issued: string -> real, lifetime: real) {
    t.Some? && t.value.jti.Some? ==> t.value.exp == issued(t.value.jti.value) + lifetime
  }

  predicate IssuedBefore(a: Auth, issued: string -> real, r: Request) {
    Presented(a, r).Ok? ==> issued(Presented(a, r).value.jti.value) <= r.now
  }

  function Clock(requests: seq<Request>, start: real): real {
    if requests == [] then start else requests[|requests| - 1].now
  }

  /** Time does not run backwards, and no token is presented before it is issued. */
  predicate Timely(a: Auth, issued: string -> real, start: real, requests: seq<Request>) {
    requests != [] ==>
      var before, r := requests[..|requests| - 1], requests[|requests| - 1];
      Timely(a, issued, start, before) && Clock(before, start) <= r.now && IssuedBefore(a, issued, r)
  }

  // ---- Refinement ----

  /** Whatever was written is remembered until it expires or has expired; and nothing else is remembered. */
  ghost predicate Inv(st: State, issued: string -> real, lifetime: real, clock: real) {
    && (forall jti {:trigger Pass(jti, Local)} :: Pass(jti, Local) in st.recorded ==>
          issued(jti) + lifetime <= clock || (jti in st.local && issued(jti) + lifetime <= st.local[jti]))
    && (forall jti {:trigger Pass(jti, Shared)} :: Pass(jti, Shared) in st.recorded ==>
          jti in st.shared && issued(jti) + lifetime <= st.shared[jti])
    && (forall jti :: jti in st.local ==> Pass(jti, Local) in st.recorded)
    && (forall jti :: jti in st.shared ==> Pass(jti, Shared) in st.recorded)
  }

  lemma CleanedInv(st: State, issued: string -> real, lifetime: real, clock: real, now: real)
    requires Inv(st, issued, lifetime, clock) && clock <= now
    ensures Inv(st.(local := Cleaned(st.local, now)), issued, lifetime, now)
  {
  }

  lemma RecordInv(st: State, issued: string -> real, lifetime: real, store: Store, jti: string, now: real)
    requires Inv(st, issued, lifetime, now) && issued(jti) <= now && lifetime <= LIFE
    ensures Inv(Record(st, store, jti, now), issued, lifetime, now)
  {
    var st' := Record(st, store, jti, now);
    assert Pass(jti, store) in st'.recorded;
    forall p | p in st'.recorded ensures p in st.recorded || p == Pass(jti, store) {
    }
  }

  /** For a token that has not expired, the pruned store remembers exactly what was written to it. */
  lemma RemembersExactly(st: State, issued: string -> real, lifetime: real, store: Store, jti: string, now: real)
    requires Inv(st, issued, lifetime, now) && now < issued(jti) + lifetime
    ensures Remembered(st, store, jti, now) <==> Pass(jti, store) in st.recorded
  {
  }

  /** The pruned stores and the full history come out alike. */
  ghost predicate Refines(x: (State, Verdict), y: (History, Verdict), issued: string -> real, lifetime: real,
                          now: real) {
    Inv(x.0, issued, lifetime, now) && HistoryOf(x.0) == y.0 && x.1 == y.1
  }

  predicate InTime(t: Token, issued: string -> real, lifetime: real, now: real) {
    t.jti.Some? && lifetime <= LIFE && issued(t.jti.value) <= now < issued(t.jti.value) + lifetime
  }

  lemma AdmitOk(st: State, issued: string -> real, lifetime: real, store: Store, t: Token, r: Request)
    requires InTime(t, issued, lifetime, r.now) && Inv(st, issued, lifetime, r.now)
    ensures Refines(Admit(st, store, t, r), IdealAdmit(HistoryOf(st), store, t, r), issued, lifetime, r.now)
  {
    RemembersExactly(st, issued, lifetime, store, t.jti.value, r.now);
    RecordInv(st, issued, lifetime, store, t.jti.value, r.now);
  }

  lemma WriteBlindOk(st: State, issued: string -> real, lifetime: real, t: Token, now: real)
    requires InTime(t, issued, lifetime, now) && Inv(st, issued, lifetime, now)
    ensures Inv(WriteBlind(st, t.jti.value, now), issued, lifetime, now)
    ensures HistoryOf(WriteBlind(st, t.jti.value, now)) == IdealWrite(HistoryOf(st), t.jti.value)
  {
    RemembersExactly(st, issued, lifetime, Shared, t.jti.value, now);
    RecordInv(st, issued, lifetime, Shared, t.jti.value, now);
  }

  lemma FallbackOk(a: Auth, st: State, issued: string -> real, lifetime: real, t: Token, r: Request)
    requires InTime(t, issued, lifetime, r.now) && Inv(st, issued, lifetime, r.now)
    ensures Refines(Fallback(a, st, t, r), IdealFallback(a, HistoryOf(st), t, r), issued, lifetime, r.now)
  {
    if a.development {
      AdmitOk(st, issued, lifetime, Local, t, r);
    }
  }

  lemma StepOk(a: Auth, st: State, issued: string -> real, lifetime: real, clock: real, r: Request)
    requires Inv(st, issued, lifetime, clock) && clock <= r.now && IssuedBefore(a, issued, r)
    requires Minted(a, issued, lifetime) && lifetime <= LIFE
    ensures Refines(Step(a, st, r), Ideal(a, HistoryOf(st), r), issued, lifetime, r.now)
  {
    CleanedInv(st, issued, lifetime, clock, r.now);
    if Presented(a, r).Ok? {
      var t := Presented(a, r).value;
      assert MintedToken(a.decode(UpTo(r.authorization.value[7..], ' ')), issued, lifetime);
      var cleaned := st.(local := Cleaned(st.local, r.now));
      StepValid(a, cleaned, issued, lifetime, t, r);
    } else {
      InvLater(st, issued, lifetime, clock, r.now);
    }
  }

  lemma InvLater(st: State, issued: string -> real, lifetime: real, clock: real, now: real)
    requires Inv(st, issued, lifetime, clock) && clock <= now
    ensures Inv(st, issued, lifetime, now)
  {}

  lemma StepValid(a: Auth, st: State, issued: string -> real, lifetime: real, t: Token, r: Request)
    requires InTime(t, issued, lifetime, r.now) && Inv(st, issued, lifetime, r.now)
    ensures r.redis.Up? ==>
              Refines(Admit(st, Shared, t, r), IdealAdmit(HistoryOf(st), Shared, t, r), issued, lifetime, r.now)
    ensures r.redis.Lost? ==>
              Refines(Fallback(a, WriteBlind(st, t.jti.value, r.now), t, r),
                      IdealFallback(a, IdealWrite(HistoryOf(st), t.jti.value), t, r), issued, lifetime, r.now)
    ensures Refines(Fallback(a, st, t, r), IdealFallback(a, HistoryOf(st), t, r), issued, lifetime, r.now)
  {
    AdmitOk(st, issued, lifetime, Shared, t, r);
    FallbackOk(a, st, issued, lifetime, t, r);
    if r.redis.Lost? {
      WriteBlindOk(st, issued, lifetime, t, r.now);
      FallbackOk(a, WriteBlind(st, t.jti.value, r.now), issued, lifetime, t, r);
    }
  }

  /** Forgetting after sixty seconds changes no decision while tokens live at most sixty seconds. */
  lemma {:induction false} ForgettingIsSafe(a: Auth, issued: string -> real, lifetime: real, start: real,
                                            requests: seq<Request>)
    requires Minted(a, issued, lifetime) && lifetime <= LIFE && Timely(a, issued, start, requests)
    ensures Inv(Run(a, requests), issued, lifetime, Clock(requests, start))
    ensures HistoryOf(Run(a, requests)) == IdealRun(a, requests)
  {
    if requests != [] {
      var before := requests[..|requests| - 1];
      ForgettingIsSafe(a, issued, lifetime, start, before);
      StepOk(a, Run(a, before), issued, lifetime, Clock(before, start), requests[|requests| - 1]);
    }
  }

  /** ...so the next verdict is the one the full history gives. */
  lemma VerdictExact(a: Auth, issued: string -> real, lifetime: real, start: real, requests: seq<Request>, r: Request)
    requires Minted(a, issued, lifetime) && lifetime <= LIFE && Timely(a, issued, start, requests + [r])
    ensures Step(a, Run(a, requests), r).1 == Ideal(a, IdealRun(a, requests), r).1
  {
    assert (requests + [r])[..|requests|] == requests;
    ForgettingIsSafe(a, issued, lifetime, start, requests);
    StepOk(a, Run(a, requests), issued, lifetime, Clock(requests, start), r);
  }

  // ---- Which tokens are accepted ----

  /** The text after "Bearer " up to the next blank. */
  predicate Carries(r: Request, text: string) {
    && r.authorization.Some? && |r.authorization.value| >= 7 && r.authorization.value[..7] == "Bearer "
    && text == UpTo(r.authorization.value[7..], ' ')
  }

  /** A claim that is absent or "*" suits every request. */
  predicate Suits(claim: Option<string>, actual: string) {
    claim == None || claim == Some("*") || claim == Some(actual)
  }

  /** The request carries a token that has not expired and has a JTI. */
  ghost predicate Valid(a: Auth, r: Request, t: Token) {
    && (exists text :: Carries(r, text) && a.decode(text) == Some(t))
    && r.now < t.exp && t.jti.Some? && t.jti.value != ""
  }

  predicate ForRequest(t: Token, r: Request) {
    t.service == Some("node-api") && Suits(t.reqMethod, r.reqMethod) && Suits(t.reqPath, r.reqPath)
  }

  /** Redis while it answers; the dictionary otherwise, in development only. */
  predicate Decides(a: Auth, r: Request, store: Store) {
    if r.redis == Up then store == Shared else a.development && store == Local
  }

  lemma PresentedValid(a: Auth, r: Request, t: Token)
    ensures Presented(a, r) == Ok(t) <==> Valid(a, r, t)
  {
    if Presented(a, r) == Ok(t) {
      assert Carries(r, UpTo(r.authorization.value[7..], ' '));
    }
  }

  /** In every run: a request is accepted exactly if it carries a valid token from the Node service, whose
      method and path claims suit the request, and the store that decides has never written its JTI. */
  lemma AcceptedExactly(a: Auth, issued: string -> real, lifetime: real, start: real, requests: seq<Request>,
                        r: Request)
    requires Minted(a, issued, lifetime) && lifetime <= LIFE && Timely(a, issued, start, requests + [r])
    ensures Step(a, Run(a, requests), r).1 == Accepted
       <==> exists t, store :: Valid(a, r, t) && ForRequest(t, r) && Decides(a, r, store)
                               && Pass(t.jti.value, store) !in Run(a, requests).recorded
  {
    VerdictExact(a, issued, lifetime, start, requests, r);
    assert (requests + [r])[..|requests|] == requests;
    ForgettingIsSafe(a, issued, lifetime, start, requests);
    if Presented(a, r).Ok? {
      var t := Presented(a, r).value;
      PresentedValid(a, r, t);
      forall t' | Valid(a, r, t') ensures t' == t {
        PresentedValid(a, r, t');
      }
      assert Decides(a, r, Shared) <==> r.redis.Up?;
      assert Decides(a, r, Local) <==> !r.redis.Up? && a.development;
    } else {
      forall t | Valid(a, r, t) ensures false {
        PresentedValid(a, r, t);
      }
    }
  }

  /** In any state, for tokens of any lifetime: what is accepted was minted for this request. */
  lemma AcceptedMeans(a: Auth, st: State, r: Request) returns (t: Token)
    requires Step(a, st, r).1 == Accepted
    ensures Valid(a, r, t) && ForRequest(t, r)
  {
    t := Presented(a, r).value;
    PresentedValid(a, r, t);
  }

  /** Hence a token minted for one method and path is never accepted for another. */
  lemma NeverElsewhere(a: Auth, requests: seq<Request>, r: Request, t: Token, reqMethod: string, reqPath: string)
    requires Valid(a, r, t) && t.reqMethod == Some(reqMethod) && t.reqPath == Some(reqPath)
    requires reqMethod != "*" && reqPath != "*" && (r.reqMethod != reqMethod || r.reqPath != reqPath)
    ensures Step(a, Run(a, requests), r).1 != Accepted
  {
    PresentedValid(a, r, t);
    if Step(a, Run(a, requests), r).1 == Accepted {
      var t' := AcceptedMeans(a, Run(a, requests), r);
      PresentedValid(a, r, t');
    }
  }

  /** Every status: 401 without a valid token or for a JTI the deciding store remembers, 500 when no store
      decides, 403 when the claims do not suit. */
  lemma StatusExactly(a: Auth, issued: string -> real, lifetime: real, start: real, requests: seq<Request>,
                      r: Request)
    requires Minted(a, issued, lifetime) && lifetime <= LIFE && Timely(a, issued, start, requests + [r])
    ensures var v := Step(a, Run(a, requests), r).1;
            && (v == Refused(401) <==>
                  forall t :: Valid(a, r, t) ==>
                    exists store :: Decides(a, r, store) && Pass(t.jti.value, store) in Run(a, requests).recorded)
            && (v == Refused(500) <==>
                  (exists t :: Valid(a, r, t)) && forall store :: !Decides(a, r, store))
            && (v == Refused(403) <==>
                  exists t, store :: Valid(a, r, t) && !ForRequest(t, r) && Decides(a, r, store)
                                     && Pass(t.jti.value, store) !in Run(a, requests).recorded)
  {
    VerdictExact(a, issued, lifetime, start, requests, r);
    assert (requests + [r])[..|requests|] == requests;
    ForgettingIsSafe(a, issued, lifetime, start, requests);
    assert Decides(a, r, Shared) <==> r.redis.Up?;
    assert Decides(a, r, Local) <==> !r.redis.Up? && a.development;
    if Presented(a, r).Ok? {
      var t := Presented(a, r).value;
      PresentedValid(a, r, t);
      forall t' | Valid(a, r, t') ensures t' == t {
        PresentedValid(a, r, t');
      }
    } else {
      forall t | Valid(a, r, t) ensures false {
        PresentedValid(a, r, t);
      }
    }
  }

  // ---- Which JTIs are refused ----

  /** A valid token with this JTI was presented, and the answer to its SET was lost. */
  ghost predicate LostFor(a: Auth, requests: seq<Request>, jti: string) {
    exists k :: 0 <= k < |requests| && LosesFor(a, requests[k], jti)
  }

  predicate LosesFor(a: Auth, r: Request, jti: string) {
    r.redis.Lost? && Presented(a, r).Ok? && Presented(a, r).value.jti == Some(jti)
  }

  lemma LostForAppend(a: Auth, requests: seq<Request>, r: Request, jti: string)
    ensures LostFor(a, requests + [r], jti) <==> LostFor(a, requests, jti) || LosesFor(a, r, jti)
  {
    assert (requests + [r])[|requests|] == r;
    if LostFor(a, requests, jti) {
      var k :| 0 <= k < |requests| && LosesFor(a, requests[k], jti);
      assert (requests + [r])[k] == requests[k];
    }
  }

  /** A JTI was written to Redis if Redis let it past or lost its answer, and to the dictionary only
      if the dictionary let it past. */
  ghost predicate WrittenBy(a: Auth, h: History, requests: seq<Request>, p: Pass) {
    p in h.recorded <==> p in h.passes || (p.store == Shared && LostFor(a, requests, p.jti))
  }

  lemma {:induction false} WrittenExactly(a: Auth, requests: seq<Request>, p: Pass)
    ensures WrittenBy(a, IdealRun(a, requests), requests, p)
  {
    if requests != [] {
      var before, r := requests[..|requests| - 1], requests[|requests| - 1];
      WrittenExactly(a, before, p);
      assert requests == before + [r];
      WrittenStep(a, IdealRun(a, before), before, r, p);
    }
  }

  lemma WrittenStep(a: Auth, h: History, requests: seq<Request>, r: Request, p: Pass)
    requires WrittenBy(a, h, requests, p)
    ensures WrittenBy(a, Ideal(a, h, r).0, requests + [r], p)
  {
    LostForAppend(a, requests, r, p.jti);
  }

  /** Exactly when a valid token is refused as replayed: the store that decides has let its JTI past before,
      or that store is Redis and the answer to an earlier SET for the JTI was lost, although nothing
      was let past then. */
  lemma ReplayedExactly(a: Auth, issued: string -> real, lifetime: real, start: real, requests: seq<Request>,
                        r: Request)
    requires Minted(a, issued, lifetime) && lifetime <= LIFE && Timely(a, issued, start, requests + [r])
    requires Presented(a, r).Ok? && StoreFor(a, r.redis).Some?
    ensures var p := Pass(Presented(a, r).value.jti.value, StoreFor(a, r.redis).value);
            Step(a, Run(a, requests), r).1 == Refused(401)
            <==> p in Run(a, requests).passes || (r.redis.Up? && LostFor(a, requests, p.jti))
  {
    assert (requests + [r])[..|requests|] == requests;
    VerdictExact(a, issued, lifetime, start, requests, r);
    ForgettingIsSafe(a, issued, lifetime, start, requests);
    WrittenExactly(a, requests, Pass(Presented(a, r).value.jti.value, StoreFor(a, r.redis).value));
  }

  /** Such a refusal does occur: outside development a lost answer is a 500, and the next presentation
      of a token that never passed is refused as replayed. */
  lemma RefusedUnused(a: Auth, r: Request)
    requires Presented(a, r).Ok? && r.redis.Up? && !a.development
    ensures Step(a, Run(a, []), r.(redis := Lost)).1 == Refused(500)
    ensures Run(a, [r.(redis := Lost)]).passes == [] && Step(a, Run(a, [r.(redis := Lost)]), r).1 == Refused(401)
  {
    var lost := r.(redis := Lost);
    assert [lost][..0] == [];
    assert Presented(a, lost) == Presented(a, r);
    assert Run(a, [lost]) == Step(a, Run(a, []), lost).0;
  }

  lemma {:induction false} IdealGrows(a: Auth, requests: seq<Request>, later: seq<Request>, p: Pass)
    requires p in IdealRun(a, requests).recorded
    ensures p in IdealRun(a, requests + later).recorded
  {
    if later == [] {
      assert requests + later == requests;
    } else {
      var n := |later| - 1;
      IdealGrows(a, requests, later[..n], p);
      assert (requests + later)[..|requests| + n] == requests + later[..n];
    }
  }

  lemma {:induction false} TimelyPrefix(a: Auth, issued: string -> real, start: real, requests: seq<Request>,
                                        later: seq<Request>)
    requires Timely(a, issued, start, requests + later)
    ensures Timely(a, issued, start, requests)
  {
    if later == [] {
      assert requests + later == requests;
    } else {
      var n := |later| - 1;
      assert (requests + later)[..|requests| + n] == requests + later[..n];
      TimelyPrefix(a, issued, start, requests, later[..n]);
    }
  }

  /** A token that got past the replay check, even one that was then refused for its service, method or
      path, is never accepted again from the same store: the answer is 401 until it expires and after. */
  lemma NeverAgain(a: Auth, issued: string -> real, lifetime: real, start: real, requests: seq<Request>, r: Request,
                   later: seq<Request>, again: Request)
    requires Minted(a, issued, lifetime) && lifetime <= LIFE
    requires Timely(a, issued, start, requests + [r] + later + [again])
    requires Step(a, Run(a, requests), r).1 in {Accepted, Refused(403)}
    requires again.authorization == r.authorization && StoreFor(a, again.redis) == StoreFor(a, r.redis)
    ensures Step(a, Run(a, requests + [r] + later), again).1 == Refused(401)
  {
    TimelyPrefix(a, issued, start, requests + [r] + later, [again]);
    TimelyPrefix(a, issued, start, requests + [r], later);
    VerdictExact(a, issued, lifetime, start, requests, r);
    VerdictExact(a, issued, lifetime, start, requests + [r] + later, again);
    assert (requests + [r])[..|requests|] == requests;
    var p := Pass(Presented(a, r).value.jti.value, StoreFor(a, r.redis).value);
    assert p in IdealRun(a, requests + [r]).recorded;
    IdealGrows(a, requests + [r], later, p);
  }

  // ---- At most once ----

  ghost predicate NoRepeat(passes: seq<Pass>) {
    forall i, j :: 0 <= i < j < |passes| ==> passes[i] != passes[j]
  }

  lemma {:induction false} IdealNeverRepeats(a: Auth, requests: seq<Request>)
    ensures NoRepeat(IdealRun(a, requests).passes)
    ensures forall p :: p in IdealRun(a, requests).passes ==> p in IdealRun(a, requests).recorded
  {
    if requests != [] {
      IdealNeverRepeats(a, requests[..|requests| - 1]);
    }
  }

  /** Tokens of this lifetime, presented in time, are let past at most once per store. */
  ghost predicate AtMostOnce(lifetime: real) {
    forall a: Auth, issued: string -> real, start: real, requests: seq<Request> ::
      Minted(a, issued, lifetime) && Timely(a, issued, start, requests) ==> NoRepeat(Run(a, requests).passes)
  }

  /** Tokens that live at most sixty seconds pass at most once, over every run and in each store;
      with any longer lifetime there is a run in which one passes twice. */
  lemma LifetimeBound(lifetime: real)
    ensures AtMostOnce(lifetime) <==> lifetime <= 60.0
  {
    if lifetime <= LIFE {
      forall a: Auth, issued: string -> real, start: real, requests: seq<Request>
        | Minted(a, issued, lifetime) && Timely(a, issued, start, requests)
        ensures NoRepeat(Run(a, requests).passes)
      {
        ForgettingIsSafe(a, issued, lifetime, start, requests);
        IdealNeverRepeats(a, requests);
      }
    } else {
      var a, issued, requests := ReplayedLate(lifetime);
      assert Run(a, requests).passes[0] == Run(a, requests).passes[1];
    }
  }

  /** The failing run: one token, presented at once and again after the cache has dropped it. */
  lemma ReplayedLate(lifetime: real) returns (a: Auth, issued: string -> real, requests: seq<Request>)
    requires lifetime > LIFE
    ensures Minted(a, issued, lifetime) && Timely(a, issued, 0.0, requests)
    ensures Run(a, requests).passes == [Pass("j", Shared), Pass("j", Shared)]
  {
    var t := Token(Some("j"), lifetime, Some("node-api"), None, None);
    a := Auth((s: string) => Some(t), false);
    issued := (j: string) => 0.0;
    var first := Request(Some("Bearer "), "GET", "/", 0.0, Up);
    var second := first.(now := (LIFE + lifetime) / 2.0);
    requests := [first, second];
    assert requests[..1] == [first] && [first][..0] == [];
    assert Presented(a, first) == Ok(t) && Presented(a, second) == Ok(t);
    assert Run(a, [first]) == Step(a, State(map[], map[], [], []), first).0;
    assert Run(a, [first]).passes == [Pass("j", Shared)];
  }

  /** With both stores in play a JTI passes at most twice. */
  lemma AtMostTwice(a: Auth, issued: string -> real, lifetime: real, start: real, requests: seq<Request>, i: nat,
                    j: nat, k: nat)
    requires Minted(a, issued, lifetime) && lifetime <= LIFE && Timely(a, issued, start, requests)
    requires i < j < k < |Run(a, requests).passes|
    ensures var passes := Run(a, requests).passes;
            !(passes[i].jti == passes[j].jti == passes[k].jti)
  {
    ForgettingIsSafe(a, issued, lifetime, start, requests);
    IdealNeverRepeats(a, requests);
    AmongThree(IdealRun(a, requests).passes, i, j, k);
  }

  lemma AmongThree(passes: seq<Pass>, i: nat, j: nat, k: nat)
    requires NoRepeat(passes) && i < j < k < |passes|
    ensures !(passes[i].jti == passes[j].jti == passes[k].jti)
  {
    var p, q, r := passes[i], passes[j], passes[k];
    assert p != q && q != r && p != r;
    assert p == Pass(p.jti, p.store) && q == Pass(q.jti, q.store) && r == Pass(r.jti, r.store);
    assert p.store == Local || p.store == Shared;
    assert q.store == Local || q.store == Shared;
  }

  lemma {:induction false} ProductionIsShared(a: Auth, requests: seq<Request>)
    requires !a.development
    ensures forall p :: p in IdealRun(a, requests).passes ==> p.store == Shared
  {
    if requests != [] {
      ProductionIsShared(a, requests[..|requests| - 1]);
    }
  }

  /** Outside development the shared store is the only one, so at most once whatever Redis does. */
  lemma ProductionOnce(a: Auth, issued: string -> real, lifetime: real, start: real, requests: seq<Request>, i: nat,
                       j: nat)
    requires Minted(a, issued, lifetime) && lifetime <= LIFE && Timely(a, issued, start, requests) && !a.development
    requires i < j < |Run(a, requests).passes|
    ensures Run(a, requests).passes[i].jti != Run(a, requests).passes[j].jti
  {
    ForgettingIsSafe(a, issued, lifetime, start, requests);
    IdealNeverRepeats(a, requests);
    ProductionIsShared(a, requests);
    var passes := IdealRun(a, requests).passes;
    assert passes[i] in passes && passes[j] in passes;
  }

  // ---- The service ----

  class RedisStore {
    var keys: map<string, real>

    constructor ()
      ensures keys == map[]
    {
      keys := map[];
    }

    /** SET key 1 EX 60 NX, which answers whether it wrote. */
    method SetNx(jti: string, now: real) returns (isNew: bool)
      modifies this
      ensures isNew == !(jti in old(keys) && now < old(keys)[jti])
      ensures keys == if isNew then old(keys)[jti := now + LIFE] else old(keys)
    {
      isNew := !(jti in keys && now < keys[jti]);
      if isNew {
        keys := keys[jti := now + LIFE];
      }
    }
  }

  class InternalAuth {
    const auth: Auth
    const store: RedisStore
    var localJtiCache: map<string, real>
    ghost var recorded: seq<Pass>
    ghost var passes: seq<Pass>

    ghost function View(): State
      reads this, store
    {
      State(localJtiCache, store.keys, recorded, passes)
    }

    constructor (auth: Auth, store: RedisStore)
      ensures this.auth == auth && this.store == store && localJtiCache == map[]
      ensures recorded == [] && passes == []
    {
      this.auth, this.store := auth, store;
      localJtiCache, recorded, passes := map[], [], [];
    }

    /** Deletes the entries whose time has passed. */
    method Cleanup(now: real)
      modifies this`localJtiCache
      ensures localJtiCache == Cleaned(old(localJtiCache), now)
    {
      var keysToDelete := set k | k in localJtiCache && now > localJtiCache[k];
      while keysToDelete != {}
        invariant keysToDelete <= localJtiCache.Keys <= old(localJtiCache).Keys
        invariant forall k :: k in keysToDelete ==> now > old(localJtiCache)[k]
        invariant forall k :: k in localJtiCache ==> localJtiCache[k] == old(localJtiCache)[k]
        invariant forall k :: k in old(localJtiCache) ==>
            (k in localJtiCache <==> k in keysToDelete || now <= old(localJtiCache)[k])
        decreases |keysToDelete|
      {
        var k :| k in keysToDelete;
        localJtiCache := localJtiCache - {k};
        keysToDelete := keysToDelete - {k};
      }
    }

    method VerifyInternalToken(r: Request) returns (v: Verdict)
      modifies this, store
      ensures View() == Step(auth, old(View()), r).0 && v == Step(auth, old(View()), r).1
    {
      var presented := Presented(auth, r);
      if presented.Err? {
        return Refused(presented.error);
      }
      var t := presented.value;
      var jti := t.jti.value;
      Cleanup(r.now);
      if r.redis.Up? || r.redis.Lost? {
        var isNew := store.SetNx(jti, r.now);
        recorded := if isNew then recorded + [Pass(jti, Shared)] else recorded;
        if r.redis.Up? {
          if !isNew {
            return Refused(401);
          }
          passes := passes + [Pass(jti, Shared)];
          return Context(t, r);
        }
      }
      // No client, or a RedisError.
      if !auth.development {
        return Refused(500);
      }
      if jti in localJtiCache {
        return Refused(401);
      }
      localJtiCache := localJtiCache[jti := r.now + LIFE];
      recorded := recorded + [Pass(jti, Local)];
      passes := passes + [Pass(jti, Local)];
      return Context(t, r);
    }
  }
}
