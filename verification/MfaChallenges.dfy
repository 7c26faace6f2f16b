// The one-time-password challenges of a sign-in: verifying, resending and
// consuming them, and what the rules together bound for one login.

module MfaChallenges {
  import opened Basics

  datatype Config = Config(maxAttempts: int, maxResends: int, cooldownSeconds: int, expireMinutes: int)

  /** Times are in milliseconds. */
  datatype Challenge = Challenge(user: nat, expiresAt: int, consumedAt: Option<int>, failedAttempts: nat,
                                 resendCount: int, lastSentAt: int)

  /** The challenges that descend from one login, oldest first, and as history how many one-time
      passwords were compared and how many access tokens were issued on them. */
  datatype Chain = Chain(challenges: seq<Challenge>, comparisons: nat, tokens: nat)

  /** A challenge id; new ids are fresh, so a challenge is known by its login and its place in the chain. */
  datatype Id = Id(login: nat, position: nat)

  /** bcrypt.compare: a match, a mismatch, or an exception before anything is compared. */
  datatype Compare = Match | Mismatch | Threw

  /** `found` is what the database lookup returned; `stored` and `userFound` say whether creating
      the record and loading the user succeeded, `delivered` whether the response was a success. */
  datatype Event =
    | SignIn(user: nat, now: int, stored: bool, delivered: bool)
    | Verify(found: Option<Id>, now: int, compare: Compare, userFound: bool)
    | Resend(found: Option<Id>, now: int, stored: bool, delivered: bool)

  datatype Response = Failed(status: nat) | ChallengeSent(id: Id) | AccessToken(user: nat)

  predicate InChains(chains: seq<Chain>, id: Id) {
    id.login < |chains| && id.position < |chains[id.login].challenges|
  }

  function At(chains: seq<Chain>, id: Id): Challenge
    requires InChains(chains, id)
  {
    chains[id.login].challenges[id.position]
  }

  function Lifetime(cfg: Config): int {
    cfg.expireMinutes * 60 * 1000
  }

  function Fresh(cfg: Config, user: nat, now: int, resendCount: int): Challenge {
    Challenge(user, now + Lifetime(cfg), None, 0, resendCount, now)
  }

  // ---- The handlers on one chain ----

  function SaveIn(chain: Chain, p: nat, c: Challenge): Chain
    requires p < |chain.challenges|
  {
    chain.(challenges := chain.challenges[p := c])
  }

  /** verifyMfa once the challenge is found. */
  function VerifyChain(cfg: Config, chain: Chain, p: nat, now: int, compare: Compare, userFound: bool)
    : (Chain, Response)
    requires p < |chain.challenges|
  {
    var c := chain.challenges[p];
    if c.consumedAt.Some? then (chain, Failed(400))
    else if now > c.expiresAt then (chain, Failed(400))
    else if c.failedAttempts >= cfg.maxAttempts then (SaveIn(chain, p, c.(consumedAt := Some(now))), Failed(429))
    else match compare
      case Threw => (chain, Failed(500))
      case Mismatch =>
        var failed := c.(failedAttempts := c.failedAttempts + 1);
        var counted := chain.(comparisons := chain.comparisons + 1);
        if failed.failedAttempts >= cfg.maxAttempts
            then (SaveIn(counted, p, failed.(consumedAt := Some(now))), Failed(429))
        else (SaveIn(counted, p, failed), Failed(401))
      case Match =>
        var saved := SaveIn(chain.(comparisons := chain.comparisons + 1), p, c.(consumedAt := Some(now)));
        if userFound then (saved.(tokens := saved.tokens + 1), AccessToken(c.user)) else (saved, Failed(500))
  }

  /** resendMfa once the challenge is found; the flag says whether a new challenge was created. */
  function ResendChain(cfg: Config, chain: Chain, p: nat, now: int, stored: bool): (Chain, Option<nat>)
    requires p < |chain.challenges|
  {
    var c := chain.challenges[p];
    if c.consumedAt.Some? then (chain, Some(400))
    else if now > c.expiresAt then (chain, Some(400))
    else if c.resendCount >= cfg.maxResends then (chain, Some(429))
    else if now - c.lastSentAt < cfg.cooldownSeconds * 1000 then (chain, Some(429))
    else
      var saved := SaveIn(chain, p, c.(consumedAt := Some(now)));
      if !stored then (saved, Some(500))
      else (saved.(challenges := saved.challenges + [Fresh(cfg, c.user, now, c.resendCount + 1)]), None)
  }

  // ---- The collection ----

  function Step(cfg: Config, chains: seq<Chain>, e: Event): (seq<Chain>, Response) {
    match e
    case SignIn(user, now, stored, delivered) =>
      if !stored then (chains, Failed(500))
      else (chains + [Chain([Fresh(cfg, user, now, 0)], 0, 0)],
            if delivered then ChallengeSent(Id(|chains|, 0)) else Failed(500))
    case Verify(found, now, compare, userFound) =>
      if found.None? || !InChains(chains, found.value) then (chains, Failed(400))
      else
        var r := VerifyChain(cfg, chains[found.value.login], found.value.position, now, compare, userFound);
        (chains[found.value.login := r.0], r.1)
    case Resend(found, now, stored, delivered) =>
      if found.None? || !InChains(chains, found.value) then (chains, Failed(400))
      else
        var chain := chains[found.value.login];
        var r := ResendChain(cfg, chain, found.value.position, now, stored);
        (chains[found.value.login := r.0],
         if r.1.Some? then Failed(r.1.value)
         else if delivered then ChallengeSent(Id(found.value.login, |chain.challenges|)) else Failed(500))
  }

  function Run(cfg: Config, events: seq<Event>): seq<Chain> {
    if events == [] then [] else Step(cfg, Run(cfg, events[..|events| - 1]), events[|events| - 1]).0
  }

  // ---- What every chain keeps ----

  function FailedIn(challenges: seq<Challenge>): nat {
    if challenges == [] then 0
    else FailedIn(challenges[..|challenges| - 1]) + challenges[|challenges| - 1].failedAttempts
  }

  predicate Open(c: Challenge) {
    c.consumedAt.None?
  }

  ghost predicate ChallengeOk(cfg: Config, challenges: seq<Challenge>, i: nat)
    requires i < |challenges|
  {
    var c := challenges[i];
    && c.resendCount == i && c.user == challenges[0].user
    && c.expiresAt == c.lastSentAt + Lifetime(cfg)
    && c.failedAttempts <= Max(cfg.maxAttempts, 0)
    && (Open(c) && cfg.maxAttempts >= 1 ==> c.failedAttempts < cfg.maxAttempts)
    && (i + 1 < |challenges| ==>
          !Open(c) && c.lastSentAt + cfg.cooldownSeconds * 1000 <= challenges[i + 1].lastSentAt <= c.expiresAt)
  }

  ghost predicate ChallengesOk(cfg: Config, challenges: seq<Challenge>) {
    && 1 <= |challenges| <= Max(cfg.maxResends, 0) + 1
    && forall i {:trigger ChallengeOk(cfg, challenges, i)} :: 0 <= i < |challenges| ==> ChallengeOk(cfg, challenges, i)
  }

  /** Every comparison either failed and was counted, or was the one match that consumed the last challenge. */
  ghost predicate ChainOk(cfg: Config, chain: Chain) {
    && ChallengesOk(cfg, chain.challenges)
    && chain.tokens <= chain.comparisons - FailedIn(chain.challenges) <= 1
    && (chain.comparisons > FailedIn(chain.challenges) ==>
          var last := chain.challenges[|chain.challenges| - 1];
          !Open(last) && last.failedAttempts < cfg.maxAttempts)
  }

  /** Only the newest challenge of a chain can still be open. */
  lemma OpenIsLast(cfg: Config, challenges: seq<Challenge>, p: nat)
    requires ChallengesOk(cfg, challenges) && p < |challenges| && Open(challenges[p])
    ensures p == |challenges| - 1
  {
    assert ChallengeOk(cfg, challenges, p);
  }

  lemma FailedInAppend(challenges: seq<Challenge>, c: Challenge)
    ensures FailedIn(challenges + [c]) == FailedIn(challenges) + c.failedAttempts
  {
    assert (challenges + [c])[..|challenges|] == challenges;
  }

  /** Replacing the last challenge by one that differs only in its attempts and consumption. */
  lemma ReplaceLast(cfg: Config, challenges: seq<Challenge>, c: Challenge)
    requires ChallengesOk(cfg, challenges) && c.failedAttempts <= Max(cfg.maxAttempts, 0)
    requires Open(c) ==> c.failedAttempts < cfg.maxAttempts
    requires var last := challenges[|challenges| - 1];
             c == last.(failedAttempts := c.failedAttempts, consumedAt := c.consumedAt)
    ensures var n := |challenges| - 1;
            && ChallengesOk(cfg, challenges[n := c])
            && FailedIn(challenges[n := c]) == FailedIn(challenges) - challenges[n].failedAttempts + c.failedAttempts
  {
    var n := |challenges| - 1;
    var next := challenges[n := c];
    assert next[..n] == challenges[..n];
    assert ChallengeOk(cfg, challenges, n);
    forall i | 0 <= i < |next| ensures ChallengeOk(cfg, next, i) {
      assert ChallengeOk(cfg, challenges, i);
    }
  }

  lemma SaveOk(cfg: Config, chain: Chain, c: Challenge, compared: nat)
    requires ChainOk(cfg, chain) && Open(chain.challenges[|chain.challenges| - 1]) && compared <= 1
    requires var last := chain.challenges[|chain.challenges| - 1];
             && c == last.(failedAttempts := c.failedAttempts, consumedAt := c.consumedAt)
             && (compared == 1 ==> last.failedAttempts < cfg.maxAttempts)
             && last.failedAttempts <= c.failedAttempts <= last.failedAttempts + compared
             && (c.failedAttempts == last.failedAttempts + compared || !Open(c))
             && (Open(c) ==> c.failedAttempts < cfg.maxAttempts)
    ensures ChainOk(cfg, SaveIn(chain.(comparisons := chain.comparisons + compared), |chain.challenges| - 1, c))
  {
    assert ChallengeOk(cfg, chain.challenges, |chain.challenges| - 1);
    ReplaceLast(cfg, chain.challenges, c);
  }

  lemma VerifyOk(cfg: Config, chain: Chain, p: nat, now: int, compare: Compare, userFound: bool)
    requires ChainOk(cfg, chain) && p < |chain.challenges|
    ensures ChainOk(cfg, VerifyChain(cfg, chain, p, now, compare, userFound).0)
  {
    var c := chain.challenges[p];
    if Open(c) && now <= c.expiresAt {
      OpenIsLast(cfg, chain.challenges, p);
      var consumed := Some(now);
      if c.failedAttempts >= cfg.maxAttempts {
        SaveOk(cfg, chain, c.(consumedAt := consumed), 0);
      } else if compare.Match? {
        SaveOk(cfg, chain, c.(consumedAt := consumed), 1);
      } else if compare.Mismatch? {
        var failed := c.(failedAttempts := c.failedAttempts + 1);
        SaveOk(cfg, chain, if failed.failedAttempts >= cfg.maxAttempts then failed.(consumedAt := consumed)
               else failed, 1);
      }
    }
  }

  lemma ExtendOk(cfg: Config, challenges: seq<Challenge>, now: int)
    requires ChallengesOk(cfg, challenges) && |challenges| <= cfg.maxResends
    requires var last := challenges[|challenges| - 1];
             !Open(last) && last.lastSentAt + cfg.cooldownSeconds * 1000 <= now <= last.expiresAt
    ensures ChallengesOk(cfg, challenges + [Fresh(cfg, challenges[0].user, now, |challenges|)])
  {
    var next := challenges + [Fresh(cfg, challenges[0].user, now, |challenges|)];
    forall i | 0 <= i < |next| ensures ChallengeOk(cfg, next, i) {
      if i < |challenges| {
        assert ChallengeOk(cfg, challenges, i);
      }
    }
  }

  lemma ResendOk(cfg: Config, chain: Chain, p: nat, now: int, stored: bool)
    requires ChainOk(cfg, chain) && p < |chain.challenges|
    ensures ChainOk(cfg, ResendChain(cfg, chain, p, now, stored).0)
  {
    var c := chain.challenges[p];
    if Open(c) && now <= c.expiresAt && c.resendCount < cfg.maxResends
        && now - c.lastSentAt >= cfg.cooldownSeconds * 1000 {
      OpenIsLast(cfg, chain.challenges, p);
      assert ChallengeOk(cfg, chain.challenges, p);
      ReplaceLast(cfg, chain.challenges, c.(consumedAt := Some(now)));
      var saved := chain.challenges[p := c.(consumedAt := Some(now))];
      assert ChallengeOk(cfg, saved, 0);
      ExtendOk(cfg, saved, now);
      FailedInAppend(saved, Fresh(cfg, c.user, now, c.resendCount + 1));
    }
  }

  ghost predicate AllOk(cfg: Config, chains: seq<Chain>) {
    forall k :: 0 <= k < |chains| ==> ChainOk(cfg, chains[k])
  }

  lemma SignInOk(cfg: Config, user: nat, now: int)
    ensures ChainOk(cfg, Chain([Fresh(cfg, user, now, 0)], 0, 0))
  {
    var c := Fresh(cfg, user, now, 0);
    FailedInAppend([], c);
    assert [] + [c] == [c];
    assert ChallengeOk(cfg, [c], 0);
  }

  lemma StepOk(cfg: Config, chains: seq<Chain>, e: Event)
    requires AllOk(cfg, chains)
    ensures AllOk(cfg, Step(cfg, chains, e).0)
  {
    match e
    case SignIn(user, now, stored, delivered) =>
      SignInOk(cfg, user, now);
    case Verify(found, now, compare, userFound) =>
      if found.Some? && InChains(chains, found.value) {
        VerifyOk(cfg, chains[found.value.login], found.value.position, now, compare, userFound);
      }
    case Resend(found, now, stored, delivered) =>
      if found.Some? && InChains(chains, found.value) {
        ResendOk(cfg, chains[found.value.login], found.value.position, now, stored);
      }
  }

  lemma {:induction false} EveryRun(cfg: Config, events: seq<Event>)
    ensures AllOk(cfg, Run(cfg, events))
  {
    if events != [] {
      EveryRun(cfg, events[..|events| - 1]);
      StepOk(cfg, Run(cfg, events[..|events| - 1]), events[|events| - 1]);
    }
  }

  lemma {:induction false} FailedInBound(challenges: seq<Challenge>, most: nat)
    requires forall i :: 0 <= i < |challenges| ==> challenges[i].failedAttempts <= most
    ensures FailedIn(challenges) <= most * |challenges|
  {
    if challenges != [] {
      FailedInBound(challenges[..|challenges| - 1], most);
      assert most * |challenges| == most * (|challenges| - 1) + most;
    }
  }

  lemma ComparisonBound(cfg: Config, chain: Chain)
    requires ChainOk(cfg, chain)
    ensures chain.comparisons <= Max(cfg.maxAttempts, 0) * |chain.challenges|
  {
    var most, n := Max(cfg.maxAttempts, 0), |chain.challenges| - 1;
    forall i | 0 <= i <= n ensures chain.challenges[i].failedAttempts <= most {
      assert ChallengeOk(cfg, chain.challenges, i);
    }
    FailedInBound(chain.challenges[..n], most);
    assert most * (n + 1) == most * n + most;
  }

  /** What any interleaving of requests leaves true of the challenges of one login: how many there
      are, that at most one is open, how many guesses they take, how far apart they were sent, and
      that they yield at most one token. */
  lemma LoginChain(cfg: Config, events: seq<Event>, k: nat)
    requires k < |Run(cfg, events)|
    ensures var chain := Run(cfg, events)[k];
            var cs := chain.challenges;
            && |cs| <= Max(cfg.maxResends, 0) + 1
            && (forall i, j :: 0 <= i < j < |cs| ==> !(Open(cs[i]) && Open(cs[j])))
            && chain.comparisons <= Max(cfg.maxAttempts, 0) * (Max(cfg.maxResends, 0) + 1)
            && (forall i, j :: 0 <= i < |cs| && j == i + 1 < |cs| ==>
                  cfg.cooldownSeconds * 1000 <= cs[j].lastSentAt - cs[i].lastSentAt <= Lifetime(cfg))
            && chain.tokens <= 1
  {
    EveryRun(cfg, events);
    var chain := Run(cfg, events)[k];
    var cs := chain.challenges;
    forall i, j | 0 <= i < |cs| && j == i + 1 < |cs|
      ensures cfg.cooldownSeconds * 1000 <= cs[j].lastSentAt - cs[i].lastSentAt <= Lifetime(cfg)
    {
      assert ChallengeOk(cfg, cs, i);
    }
    forall i, j | 0 <= i < j < |cs| ensures !(Open(cs[i]) && Open(cs[j])) {
      assert ChallengeOk(cfg, cs, i);
    }
    ComparisonBound(cfg, chain);
    Times(Max(cfg.maxAttempts, 0), |cs|, Max(cfg.maxResends, 0) + 1);
  }

  lemma Times(a: nat, m: nat, n: nat)
    requires m <= n
    ensures a * m <= a * n
  {
    assert a * n == a * m + a * (n - m);
  }

  // ---- When a request succeeds ----

  /** The newest challenge of its login, still open and not expired. */
  predicate Live(cfg: Config, chains: seq<Chain>, id: Id, now: int) {
    && InChains(chains, id) && id.position == |chains[id.login].challenges| - 1
    && At(chains, id).consumedAt == None && now <= At(chains, id).lastSentAt + cfg.expireMinutes * 60000
  }

  /** A found challenge is live exactly if it is neither consumed nor expired. */
  lemma LiveExactly(cfg: Config, events: seq<Event>, id: Id, now: int)
    requires InChains(Run(cfg, events), id)
    ensures var c := At(Run(cfg, events), id);
            && (Live(cfg, Run(cfg, events), id, now) <==> c.consumedAt == None && now <= c.expiresAt)
            && c.resendCount == id.position && (c.consumedAt == None && cfg.maxAttempts >= 1 ==>
                  c.failedAttempts < cfg.maxAttempts)
  {
    EveryRun(cfg, events);
    var chains := Run(cfg, events);
    assert ChallengeOk(cfg, chains[id.login].challenges, id.position);
    if Open(At(chains, id)) {
      OpenIsLast(cfg, chains[id.login].challenges, id.position);
    }
  }

  /** In every run, a token is issued exactly for the right password on a live challenge: a challenge
      that has used up its attempts is never still open. */
  lemma TokenExactly(cfg: Config, events: seq<Event>, id: Id, now: int, compare: Compare, userFound: bool)
    requires cfg.maxAttempts >= 1
    ensures var chains := Run(cfg, events);
            Step(cfg, chains, Verify(Some(id), now, compare, userFound)).1.AccessToken?
            <==> Live(cfg, chains, id, now) && compare.Match? && userFound
  {
    if InChains(Run(cfg, events), id) {
      LiveExactly(cfg, events, id, now);
    }
  }

  /** A sign-in that is stored opens one challenge for its user, sent at once, with no attempt failed. */
  lemma SignInExactly(cfg: Config, events: seq<Event>, user: nat, now: int, stored: bool, delivered: bool)
    ensures var chains := Run(cfg, events);
            var (chains', r) := Step(cfg, chains, SignIn(user, now, stored, delivered));
            && (!stored ==> chains' == chains && r == Failed(500))
            && (stored ==>
                  && |chains'| == |chains| + 1 && chains'[..|chains|] == chains
                  && (r == if delivered then ChallengeSent(Id(|chains|, 0)) else Failed(500))
                  && (Live(cfg, chains', Id(|chains|, 0), now) <==> 0 <= cfg.expireMinutes)
                  && var c := At(chains', Id(|chains|, 0));
                     c.user == user && c.failedAttempts == 0 && c.resendCount == 0 && c.lastSentAt == now)
  {}

  /** In every run, what a verification answers and does. A challenge that is not live answers 400 and
      changes nothing. On a live one a comparison that throws answers 500 and changes nothing; a mismatch
      adds a failed attempt and answers 401, except that the last attempt closes the challenge and answers 429;
      a match closes it. No other challenge changes. */
  lemma VerifyExactly(cfg: Config, events: seq<Event>, id: Id, now: int, compare: Compare, userFound: bool)
    requires cfg.maxAttempts >= 1 && InChains(Run(cfg, events), id)
    ensures var chains := Run(cfg, events);
            var (chains', r) := Step(cfg, chains, Verify(Some(id), now, compare, userFound));
            var c := At(chains, id);
            && |chains'| == |chains| && InChains(chains', id)
            && (forall other :: InChains(chains, other) && other != id ==>
                  InChains(chains', other) && At(chains', other) == At(chains, other))
            && (!Live(cfg, chains, id, now) || compare.Threw? ==> chains' == chains)
            && (!Live(cfg, chains, id, now) ==> r == Failed(400))
            && (Live(cfg, chains, id, now) ==>
                  match compare
                  case Threw => r == Failed(500)
                  case Mismatch =>
                    var last := c.failedAttempts + 1 == cfg.maxAttempts;
                    && r == Failed(if last then 429 else 401)
                    && At(chains', id) == c.(failedAttempts := c.failedAttempts + 1,
                                             consumedAt := if last then Some(now) else None)
                  case Match =>
                    && (r == if userFound then AccessToken(c.user) else Failed(500))
                    && At(chains', id) == c.(consumedAt := Some(now)))
  {
    LiveExactly(cfg, events, id, now);
  }

  function WrongGuesses(id: Id, now: int, n: nat): (events: seq<Event>)
    ensures |events| == n
  {
    if n == 0 then [] else WrongGuesses(id, now, n - 1) + [Verify(Some(id), now, Mismatch, true)]
  }

  lemma {:induction false} AfterGuesses(cfg: Config, events: seq<Event>, id: Id, now: int, n: nat)
    requires cfg.maxAttempts >= 1 && Live(cfg, Run(cfg, events), id, now)
    ensures var chains := Run(cfg, events);
            var chains' := Run(cfg, events + WrongGuesses(id, now, n));
            && InChains(chains', id)
            && if At(chains, id).failedAttempts + n < cfg.maxAttempts
               then Live(cfg, chains', id, now)
                    && At(chains', id).failedAttempts == At(chains, id).failedAttempts + n
               else !Live(cfg, chains', id, now)
  {
    if n == 0 {
      LiveExactly(cfg, events, id, now);
      assert events + WrongGuesses(id, now, 0) == events;
    } else {
      AfterGuesses(cfg, events, id, now, n - 1);
      var before := events + WrongGuesses(id, now, n - 1);
      var e := Verify(Some(id), now, Mismatch, true);
      VerifyExactly(cfg, before, id, now, Mismatch, true);
      assert events + WrongGuesses(id, now, n) == before + [e];
      assert (before + [e])[..|before|] == before;
      LiveExactly(cfg, events + WrongGuesses(id, now, n), id, now);
    }
  }

  /** How many guesses there are: after n wrong ones on a live challenge the right one still signs in if and
      only if, with those that failed before, they are fewer than the configured attempts. */
  lemma GuessesExactly(cfg: Config, events: seq<Event>, id: Id, now: int, n: nat)
    requires cfg.maxAttempts >= 1 && Live(cfg, Run(cfg, events), id, now)
    ensures var after := Run(cfg, events + WrongGuesses(id, now, n));
            Step(cfg, after, Verify(Some(id), now, Match, true)).1 == AccessToken(At(Run(cfg, events), id).user)
            <==> At(Run(cfg, events), id).failedAttempts + n < cfg.maxAttempts
  {
    AfterGuesses(cfg, events, id, now, n);
    TokenExactly(cfg, events + WrongGuesses(id, now, n), id, now, Match, true);
    SameUser(cfg, events, id, now, n);
  }

  lemma {:induction false} SameUser(cfg: Config, events: seq<Event>, id: Id, now: int, n: nat)
    requires InChains(Run(cfg, events), id)
    ensures InChains(Run(cfg, events + WrongGuesses(id, now, n)), id)
    ensures At(Run(cfg, events + WrongGuesses(id, now, n)), id).user == At(Run(cfg, events), id).user
  {
    if n == 0 {
      assert events + WrongGuesses(id, now, 0) == events;
    } else {
      SameUser(cfg, events, id, now, n - 1);
      var before := events + WrongGuesses(id, now, n - 1);
      var e := Verify(Some(id), now, Mismatch, true);
      assert events + WrongGuesses(id, now, n) == before + [e];
      assert (before + [e])[..|before|] == before;
      SameUserStep(cfg, Run(cfg, before), id, e);
    }
  }

  lemma SameUserStep(cfg: Config, chains: seq<Chain>, id: Id, e: Event)
    requires InChains(chains, id) && e.Verify? && e.found == Some(id)
    ensures InChains(Step(cfg, chains, e).0, id) && At(Step(cfg, chains, e).0, id).user == At(chains, id).user
  {}

  /** In every run, a resend adds a challenge exactly when its challenge is live, the login has resends left
      and the cooldown has passed since the last send. */
  lemma ResendExactly(cfg: Config, events: seq<Event>, id: Id, now: int, delivered: bool)
    requires InChains(Run(cfg, events), id)
    ensures var chains := Run(cfg, events);
            var n := |chains[id.login].challenges|;
            |Step(cfg, chains, Resend(Some(id), now, true, delivered)).0[id.login].challenges| == n + 1
            <==> (Live(cfg, chains, id, now) && n <= cfg.maxResends
                  && now - At(chains, id).lastSentAt >= cfg.cooldownSeconds * 1000)
  {
    LiveExactly(cfg, events, id, now);
  }

  /** What a resend answers and does: 400 if the challenge is not live, 429 if resends are used up or the
      cooldown has not passed, and then nothing changes; otherwise the challenge is closed and, unless
      storing fails, a fresh one for the same user follows it. */
  lemma ResendAnswers(cfg: Config, events: seq<Event>, id: Id, now: int, stored: bool, delivered: bool)
    requires InChains(Run(cfg, events), id)
    ensures var chains := Run(cfg, events);
            var (chains', r) := Step(cfg, chains, Resend(Some(id), now, stored, delivered));
            var (c, n) := (At(chains, id), |chains[id.login].challenges|);
            var live := Live(cfg, chains, id, now);
            var allowed := live && id.position < cfg.maxResends
                && now - c.lastSentAt >= cfg.cooldownSeconds * 1000;
            && (!allowed ==> chains' == chains && r == Failed(if live then 429 else 400))
            && (allowed ==>
                  && InChains(chains', id) && At(chains', id) == c.(consumedAt := Some(now))
                  && (!stored ==> |chains'[id.login].challenges| == n && r == Failed(500))
                  && (stored ==>
                        && (r == if delivered then ChallengeSent(Id(id.login, n)) else Failed(500))
                        && Live(cfg, chains', Id(id.login, n), now) == (0 <= cfg.expireMinutes)
                        && InChains(chains', Id(id.login, n))
                        && var c' := At(chains', Id(id.login, n));
                           c' == Challenge(c.user, now + cfg.expireMinutes * 60000, None, 0, n, now)))
  {
    LiveExactly(cfg, events, id, now);
  }

  /** Resends do not keep a login alive for ever: its k-th challenge was sent within k lifetimes of the first. */
  lemma {:induction false} SentInTime(cfg: Config, challenges: seq<Challenge>, k: nat)
    requires ChallengesOk(cfg, challenges) && k < |challenges|
    ensures challenges[k].lastSentAt <= challenges[0].lastSentAt + k * Lifetime(cfg)
  {
    if k > 0 {
      SentInTime(cfg, challenges, k - 1);
      assert ChallengeOk(cfg, challenges, k - 1);
      assert k * Lifetime(cfg) == (k - 1) * Lifetime(cfg) + Lifetime(cfg);
    }
  }

  /** As long as one lifetime for the first challenge and one for each resend. */
  function LastInstant(cfg: Config): int {
    Lifetime(cfg) * (Max(cfg.maxResends, 0) + 1)
  }

  lemma ExpiresInTime(cfg: Config, challenges: seq<Challenge>, k: nat)
    requires ChallengesOk(cfg, challenges) && k < |challenges| && Lifetime(cfg) >= 0
    ensures challenges[k].expiresAt <= challenges[0].lastSentAt + LastInstant(cfg)
  {
    SentInTime(cfg, challenges, k);
    assert ChallengeOk(cfg, challenges, k);
    Times(Lifetime(cfg), k + 1, Max(cfg.maxResends, 0) + 1);
    assert Lifetime(cfg) * (k + 1) == k * Lifetime(cfg) + Lifetime(cfg);
  }

  /** A token is issued, if at all, within maxResends + 1 lifetimes of the sign-in. */
  lemma TokenInTime(cfg: Config, events: seq<Event>, id: Id, now: int, compare: Compare, userFound: bool)
    requires InChains(Run(cfg, events), id) && Lifetime(cfg) >= 0 && cfg.maxAttempts >= 1
    requires Step(cfg, Run(cfg, events), Verify(Some(id), now, compare, userFound)).1.AccessToken?
    ensures now <= Run(cfg, events)[id.login].challenges[0].lastSentAt + LastInstant(cfg)
  {
    EveryRun(cfg, events);
    TokenExactly(cfg, events, id, now, compare, userFound);
    ExpiresInTime(cfg, Run(cfg, events)[id.login].challenges, id.position);
  }

  // ---- Finality ----

  /** No challenge of the login is open. */
  predicate Closed(chain: Chain) {
    forall i :: 0 <= i < |chain.challenges| ==> !Open(chain.challenges[i])
  }

  /** A login whose challenges are all consumed is over: nothing that happens later changes it. */
  lemma {:induction false} ClosedForever(cfg: Config, events: seq<Event>, later: seq<Event>, k: nat)
    requires k < |Run(cfg, events)| && Closed(Run(cfg, events)[k])
    ensures k < |Run(cfg, events + later)| && Run(cfg, events + later)[k] == Run(cfg, events)[k]
  {
    if later == [] {
      assert events + later == events;
    } else {
      var n := |later| - 1;
      ClosedForever(cfg, events, later[..n], k);
      assert (events + later)[..|events| + n] == events + later[..n];
    }
  }

  /** An access token ends its login: it is issued on a match only, and from then on no request on
      any of the login's challenges compares, resends or issues anything. */
  lemma TokenEndsLogin(cfg: Config, events: seq<Event>, e: Event, later: seq<Event>)
    requires Step(cfg, Run(cfg, events), e).1.AccessToken?
    ensures e.Verify? && e.compare.Match? && e.found.Some? && InChains(Run(cfg, events), e.found.value)
    ensures var k, after := e.found.value.login, Run(cfg, events + [e]);
            && At(Run(cfg, events), e.found.value).user == Step(cfg, Run(cfg, events), e).1.user
            && k < |after| && after[k].tokens == 1
            && k < |Run(cfg, events + [e] + later)| && Run(cfg, events + [e] + later)[k] == after[k]
  {
    EveryRun(cfg, events);
    EveryRun(cfg, events + [e]);
    assert (events + [e])[..|events|] == events;
    var before, id := Run(cfg, events), e.found.value;
    OpenIsLast(cfg, before[id.login].challenges, id.position);
    var after := Run(cfg, events + [e])[id.login];
    forall i | 0 <= i < |after.challenges| ensures !Open(after.challenges[i]) {
      assert ChallengeOk(cfg, after.challenges, i);
    }
    ClosedForever(cfg, events + [e], later, id.login);
  }

  // ---- The controller ----

  class AuthController {
    const cfg: Config
    var chains: seq<Chain>

    constructor (cfg: Config)
      ensures this.cfg == cfg && chains == Run(cfg, [])
    {
      this.cfg := cfg;
      chains := [];
    }

    method Save(id: Id, c: Challenge)
      requires InChains(chains, id)
      modifies this
      ensures chains == old(chains)[id.login := SaveIn(old(chains)[id.login], id.position, c)]
    {
      chains := chains[id.login := SaveIn(chains[id.login], id.position, c)];
    }

    method SendMfaChallenge(user: nat, now: int, stored: bool, delivered: bool) returns (r: Response)
      modifies this
      ensures chains == Step(cfg, old(chains), SignIn(user, now, stored, delivered)).0
          && r == Step(cfg, old(chains), SignIn(user, now, stored, delivered)).1
    {
      if !stored {
        return Failed(500);
      }
      chains := chains + [Chain([Fresh(cfg, user, now, 0)], 0, 0)];
      r := if delivered then ChallengeSent(Id(|chains| - 1, 0)) else Failed(500);
    }

    method VerifyMfa(found: Option<Id>, now: int, compare: Compare, userFound: bool) returns (r: Response)
      modifies this
      ensures chains == Step(cfg, old(chains), Verify(found, now, compare, userFound)).0
          && r == Step(cfg, old(chains), Verify(found, now, compare, userFound)).1
    {
      if found.None? || !InChains(chains, found.value) {
        return Failed(400);
      }
      var id := found.value;
      var challenge := At(chains, id);
      assert chains[id.login := chains[id.login]] == chains;
      if challenge.consumedAt.Some? || now > challenge.expiresAt {
        return Failed(400);
      }
      if challenge.failedAttempts >= cfg.maxAttempts {
        challenge := challenge.(consumedAt := Some(now));
        Save(id, challenge);
        return Failed(429);
      }
      if compare.Threw? {
        return Failed(500);
      }
      var chain := chains[id.login];
      chains := chains[id.login := chain.(comparisons := chain.comparisons + 1)];
      if compare.Mismatch? {
        challenge := challenge.(failedAttempts := challenge.failedAttempts + 1);
        if challenge.failedAttempts >= cfg.maxAttempts {
          challenge := challenge.(consumedAt := Some(now));
          Save(id, challenge);
          return Failed(429);
        }
        Save(id, challenge);
        return Failed(401);
      }
      challenge := challenge.(consumedAt := Some(now));
      Save(id, challenge);
      if !userFound {
        return Failed(500);
      }
      chains := chains[id.login := chains[id.login].(tokens := chains[id.login].tokens + 1)];
      return AccessToken(challenge.user);
    }

    method ResendMfa(found: Option<Id>, now: int, stored: bool, delivered: bool) returns (r: Response)
      modifies this
      ensures chains == Step(cfg, old(chains), Resend(found, now, stored, delivered)).0
          && r == Step(cfg, old(chains), Resend(found, now, stored, delivered)).1
    {
      if found.None? || !InChains(chains, found.value) {
        return Failed(400);
      }
      var id := found.value;
      var challenge := At(chains, id);
      assert chains[id.login := chains[id.login]] == chains;
      if challenge.consumedAt.Some? || now > challenge.expiresAt {
        return Failed(400);
      }
      if challenge.resendCount >= cfg.maxResends || now - challenge.lastSentAt < cfg.cooldownSeconds * 1000 {
        return Failed(429);
      }
      Save(id, challenge.(consumedAt := Some(now)));
      if !stored {
        return Failed(500);
      }
      var chain := chains[id.login];
      chains := chains[id.login := chain.(challenges := chain.challenges + [Fresh(cfg, challenge.user, now,
          challenge.resendCount + 1)])];
      r := if delivered then ChallengeSent(Id(id.login, |chain.challenges|)) else Failed(500);
    }
  }
}
