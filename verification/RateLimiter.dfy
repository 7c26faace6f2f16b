// The sliding-window rate limiter: per-key deques of accepted request times,
// pruned on every access, against the full history of accepted requests.

module RateLimiter {
  import opened Basics
  import opened Text

  datatype Settings = Settings(enabled: bool, window: real, authLimit: int, uploadLimit: int, generalLimit: int)

  datatype Request = Request(path: string, forwarded: Option<string>, host: Option<string>, now: real)

  // ---- Keys and limits ----

  predicate IsSpace(c: char) {
    c == ' ' || 9 <= c as int <= 13
  }

  /** str.strip() on ASCII whitespace. */
  function Strip(s: string): string {
    if s == "" then s
    else if IsSpace(s[0]) then Strip(s[1..])
    else if IsSpace(s[|s| - 1]) then Strip(s[..|s| - 1])
    else s
  }

  function ClientIp(r: Request): string {
    if r.forwarded.Some? && r.forwarded.value != "" then Strip(UpTo(r.forwarded.value, ','))
    else if r.host.Some? then r.host.value
    else "unknown"
  }

  function LimitForPath(s: Settings, path: string): int {
    if StartsWith(path, "/api/auth/") then s.authLimit
    else if StartsWith(path, "/api/files/send") then s.uploadLimit
    else s.generalLimit
  }

  function Key(r: Request): string {
    ClientIp(r) + ":" + UpTo(r.path, '?')
  }

  predicate AllSpace(s: string) {
    forall i :: 0 <= i < |s| ==> IsSpace(s[i])
  }

  /** Text that neither starts nor ends with white space. */
  predicate Trimmed(s: string) {
    s != "" ==> !IsSpace(s[0]) && !IsSpace(s[|s| - 1])
  }

  lemma {:induction false} StripPads(left: string, s: string, right: string)
    requires AllSpace(left) && AllSpace(right) && Trimmed(s)
    ensures Strip(left + s + right) == s
    decreases |left| + |right|
  {
    var whole := left + s + right;
    if left != "" {
      assert whole[1..] == left[1..] + s + right;
      StripPads(left[1..], s, right);
    } else if right != "" {
      var n := |right| - 1;
      assert whole[..|whole| - 1] == left + s + right[..n];
      StripPads(left, s, right[..n]);
      if s == "" {
        StripSpace(right);
        assert whole == right;
      } else {
        assert whole[0] == s[0];
      }
    } else {
      assert whole == s;
    }
  }

  lemma {:induction false} StripSpace(s: string)
    requires AllSpace(s)
    ensures Strip(s) == ""
  {
    if s != "" {
      StripSpace(s[1..]);
    }
  }

  /** The client is the first address of a forwarded list, without the white space around it; without
      a list it is the peer, and "unknown" without a peer. */
  lemma ClientExactly(r: Request, left: string, ip: string, right: string, rest: string)
    requires AllSpace(left) && AllSpace(right) && Trimmed(ip) && ',' !in ip
    ensures r.forwarded == Some(left + ip + right + "," + rest) ==> ClientIp(r) == ip
    ensures r.forwarded == Some(left + ip + right) && left + ip + right != "" ==> ClientIp(r) == ip
    ensures r.forwarded in {None, Some("")} ==> ClientIp(r) == if r.host.Some? then r.host.value else "unknown"
  {
    var first := left + ip + right;
    assert ',' !in first;
    StripPads(left, ip, right);
    UpToAppend(first, ',', rest);
    assert first + [','] + rest == first + "," + rest;
    UpToNone(first, ',');
  }

  /** Sign-in paths have one limit, sending files another, and everything else the general one. */
  lemma LimitExactly(s: Settings, path: string)
    ensures LimitForPath(s, path) == if "/api/auth/" <= path then s.authLimit
                                     else if "/api/files/send" <= path then s.uploadLimit else s.generalLimit
  {}

  const API: string := "/api/"

  /** The longer address is the shorter one, ":/api/" and more. */
  predicate Extends(short: string, long: string) {
    && |short| + 6 <= |long| && short == long[..|short|] && long[|short|..|short| + 6] == ":/api/"
    && '?' !in long[|short| + 6..]
  }

  predicate Nested(a: string, b: string) {
    Extends(a, b) || Extends(b, a)
  }

  /** One key from a shorter and a longer address: the longer one extends the shorter. */
  lemma LongerExtends(ip: string, rest: string, ip': string, rest': string)
    requires API <= rest && API <= rest' && '?' !in rest && ip + ":" + rest == ip' + ":" + rest'
    requires |ip| < |ip'|
    ensures Extends(ip, ip')
  {
    var key, key' := ip + ":" + rest, ip' + ":" + rest';
    var n, d := |ip|, |ip'| - |ip|;
    assert ip == key[..n] && ip' == key'[..|ip'|];
    assert key[n..] == [':'] + rest && key'[|ip'|] == ':';
    assert key[|ip'|] == rest[d - 1];
    assert rest[..5] == API && rest[0] == '/' && rest[1] == 'a' && rest[2] == 'p' && rest[3] == 'i' && rest[4] == '/';
    assert d > 5;
    assert ip'[n..n + 6] == key[n..n + 6] == [':'] + rest[..5] == ":/api/";
    forall i | n + 6 <= i < |ip'| ensures ip'[i] != '?' {
      assert ip'[i] == key[i] == rest[i - n - 1];
    }
  }

  lemma NoQuestion(path: string)
    ensures '?' !in UpTo(path, '?')
  {
    if path != "" {
      NoQuestion(path[1..]);
    }
  }

  /** Equal keys come from one address and path, or from two addresses of which one extends the other. */
  lemma KeySplits(a: Request, b: Request)
    requires StartsWith(a.path, API) && StartsWith(b.path, API) && Key(a) == Key(b)
    ensures Nested(ClientIp(a), ClientIp(b)) || (ClientIp(a) == ClientIp(b) && UpTo(a.path, '?') == UpTo(b.path, '?'))
  {
    var ip, ip', rest, rest' := ClientIp(a), ClientIp(b), UpTo(a.path, '?'), UpTo(b.path, '?');
    UpToKeepsPrefix(a.path, '?', API);
    UpToKeepsPrefix(b.path, '?', API);
    NoQuestion(a.path);
    NoQuestion(b.path);
    if |ip| < |ip'| {
      LongerExtends(ip, rest, ip', rest');
    } else if |ip'| < |ip| {
      LongerExtends(ip', rest', ip, rest);
    } else {
      assert ip == Key(a)[..|ip|] && ip' == Key(b)[..|ip|];
      assert rest == Key(a)[|ip| + 1..] && rest' == Key(b)[|ip| + 1..];
    }
  }

  /** Requests counted in one deque are held against one limit unless one address extends the other. */
  lemma KeyFixesLimit(s: Settings, a: Request, b: Request)
    requires StartsWith(a.path, API) && StartsWith(b.path, API) && Key(a) == Key(b) && !Nested(ClientIp(a), ClientIp(b))
    ensures LimitForPath(s, a.path) == LimitForPath(s, b.path)
  {
    KeySplits(a, b);
    UpToKeepsPrefix(a.path, '?', "/api/auth/");
    UpToKeepsPrefix(b.path, '?', "/api/auth/");
    UpToKeepsPrefix(a.path, '?', "/api/files/send");
    UpToKeepsPrefix(b.path, '?', "/api/files/send");
  }

  /** A request from an address, as the peer's or as a forwarded one. */
  predicate From(r: Request, ip: string) {
    ClientIp(r) == ip && StartsWith(r.path, API)
  }

  function Peer(ip: string, path: string, now: real): Request {
    Request(path, None, Some(ip), now)
  }

  /** What the shorter address has to ask for to share a key with the longer one asking for `path`. */
  function Shared(short: string, long: string, path: string): string
    requires Extends(short, long)
  {
    long[|short| + 1..] + ":" + path
  }

  lemma SharedKey(short: string, long: string, path: string, now: real)
    requires Extends(short, long) && StartsWith(path, API) && '?' !in path
    ensures var a, b := Peer(short, Shared(short, long, path), now), Peer(long, path, now);
            From(a, short) && From(b, long) && Key(a) == Key(b)
  {
    var rest := Shared(short, long, path);
    assert long[|short|..|short| + 6] == ":/api/" && long[|short|] == ':';
    assert rest[..5] == long[|short|..|short| + 6][1..] == API;
    forall i | 0 <= i < |rest| ensures rest[i] != '?' {
      if i < 5 {
        assert rest[i] == API[i];
      } else if i < |long| - |short| - 1 {
        assert rest[i] == long[|short| + 6..][i - 5];
      }
    }
    UpToNone(rest, '?');
    UpToNone(path, '?');
    assert long == short + [':'] + long[|short| + 1..];
    assert short + ":" + rest == long + ":" + path;
  }

  /** Two addresses can share a deque exactly when one of them extends the other. */
  lemma ShareExactly(ip: string, ip': string)
    requires ip != ip'
    ensures (exists a, b :: From(a, ip) && From(b, ip') && Key(a) == Key(b)) <==> Nested(ip, ip')
  {
    if Extends(ip, ip') {
      SharedKey(ip, ip', API, 0.0);
      assert From(Peer(ip, Shared(ip, ip', API), 0.0), ip) && From(Peer(ip', API, 0.0), ip');
    } else if Extends(ip', ip) {
      SharedKey(ip', ip, API, 0.0);
      assert From(Peer(ip, API, 0.0), ip) && From(Peer(ip', Shared(ip', ip, API), 0.0), ip');
    } else {
      forall a, b | From(a, ip) && From(b, ip') ensures Key(a) != Key(b) {
        if Key(a) == Key(b) {
          KeySplits(a, b);
        }
      }
    }
  }

  // ---- The pruned deques ----

  /** The popleft loop: drops the head while it is at or before the cutoff. */
  function Prune(bucket: seq<real>, cutoff: real): seq<real> {
    if bucket != [] && bucket[0] <= cutoff then Prune(bucket[1..], cutoff) else bucket
  }

  type Buckets = map<string, seq<real>>

  function Bucket(b: Buckets, key: string): seq<real> {
    if key in b then b[key] else []
  }

  /** An accepted request, with the limit it was held against. */
  datatype Hit = Hit(key: string, time: real, limit: int)

  /** The deques, and as history every accepted request and the time of the latest one seen. */
  datatype State = State(buckets: Buckets, accepted: seq<Hit>, clock: real)

  predicate Limited(s: Settings, r: Request) {
    s.enabled && StartsWith(r.path, "/api/")
  }

  /** What dispatch does with a limited request; the second result is whether it passes. */
  function Admit(st: State, window: real, key: string, limit: int, now: real): (State, bool) {
    var bucket := Prune(Bucket(st.buckets, key), now - window);
    if |bucket| >= limit then (State(st.buckets[key := bucket], st.accepted, now), false)
    else (State(st.buckets[key := bucket + [now]], st.accepted + [Hit(key, now, limit)], now), true)
  }

  function Step(s: Settings, st: State, r: Request): (State, bool) {
    if !Limited(s, r) then (st.(clock := r.now), true)
    else Admit(st, s.window, Key(r), LimitForPath(s, r.path), r.now)
  }

  function Run(s: Settings, start: real, requests: seq<Request>): State {
    if requests == [] then State(map[], [], start)
    else Step(s, Run(s, start, requests[..|requests| - 1]), requests[|requests| - 1]).0
  }

  function Latest(start: real, requests: seq<Request>): real {
    if requests == [] then start else requests[|requests| - 1].now
  }

  /** Time does not run backwards. */
  predicate Monotone(start: real, requests: seq<Request>) {
    requests != [] ==>
      var before := requests[..|requests| - 1];
      Monotone(start, before) && Latest(start, before) <= Latest(start, requests)
  }

  // ---- The full history ----

  /** The times of a key's accepted requests. */
  function Times(hits: seq<Hit>, key: string): seq<real> {
    if hits == [] then []
    else
      var last := hits[|hits| - 1];
      var before := Times(hits[..|hits| - 1], key);
      if last.key == key then before + [last.time] else before
  }

  /** The elements after the cutoff, in order. */
  function After(times: seq<real>, cutoff: real): seq<real> {
    if times == [] then []
    else
      var last := times[|times| - 1];
      var before := After(times[..|times| - 1], cutoff);
      if last > cutoff then before + [last] else before
  }

  /** How many accepted requests of a key lie in (lo, hi]. */
  function CountIn(hits: seq<Hit>, key: string, lo: real, hi: real): nat {
    if hits == [] then 0
    else
      var last := hits[|hits| - 1];
      CountIn(hits[..|hits| - 1], key, lo, hi) + if last.key == key && lo < last.time <= hi then 1 else 0
  }

  predicate Sorted(times: seq<real>) {
    forall i, j :: 0 <= i < j < |times| ==> times[i] <= times[j]
  }

  lemma {:induction false} AfterAppend(times: seq<real>, t: real, cutoff: real)
    ensures After(times + [t], cutoff) == if t > cutoff then After(times, cutoff) + [t] else After(times, cutoff)
  {
    assert (times + [t])[..|times|] == times;
  }

  lemma {:induction false} AfterPrepend(t: real, times: seq<real>, cutoff: real)
    ensures After([t] + times, cutoff) == if t > cutoff then [t] + After(times, cutoff) else After(times, cutoff)
  {
    if times != [] {
      var n := |times| - 1;
      AfterPrepend(t, times[..n], cutoff);
      assert ([t] + times)[..n + 1] == [t] + times[..n];
    } else {
      assert ([t] + times)[..0] == [];
    }
  }

  lemma {:induction false} AllAfter(times: seq<real>, cutoff: real)
    requires forall i :: 0 <= i < |times| ==> times[i] > cutoff
    ensures After(times, cutoff) == times
  {
    if times != [] {
      AllAfter(times[..|times| - 1], cutoff);
      assert times == times[..|times| - 1] + [times[|times| - 1]];
    }
  }

  /** On a sorted deque the popleft loop keeps exactly the elements after the cutoff. */
  lemma {:induction false} PruneIsAfter(times: seq<real>, cutoff: real)
    requires Sorted(times)
    ensures Prune(times, cutoff) == After(times, cutoff)
  {
    if times != [] && times[0] <= cutoff {
      PruneIsAfter(times[1..], cutoff);
      AfterPrepend(times[0], times[1..], cutoff);
      assert times == [times[0]] + times[1..];
    } else {
      AllAfter(times, cutoff);
    }
  }

  lemma {:induction false} AfterAfter(times: seq<real>, early: real, late: real)
    requires early <= late
    ensures After(After(times, early), late) == After(times, late)
  {
    if times != [] {
      var n := |times| - 1;
      AfterAfter(times[..n], early, late);
      if times[n] > early {
        AfterAppend(After(times[..n], early), times[n], late);
      } else {
        assert After(times, early) == After(times[..n], early);
        assert After(times, late) == After(times[..n], late);
      }
    }
  }

  predicate UpToTime(times: seq<real>, bound: real) {
    Sorted(times) && forall i :: 0 <= i < |times| ==> times[i] <= bound
  }

  lemma {:induction false} PruneSorted(times: seq<real>, cutoff: real, bound: real)
    requires UpToTime(times, bound)
    ensures UpToTime(Prune(times, cutoff), bound)
  {
    if times != [] && times[0] <= cutoff {
      PruneSorted(times[1..], cutoff, bound);
    }
  }

  lemma TimesAppend(hits: seq<Hit>, h: Hit, key: string)
    ensures Times(hits + [h], key) == if h.key == key then Times(hits, key) + [h.time] else Times(hits, key)
  {
    assert (hits + [h])[..|hits|] == hits;
  }

  predicate NoneLater(hits: seq<Hit>, bound: real) {
    forall i :: 0 <= i < |hits| ==> hits[i].time <= bound
  }

  lemma {:induction false} CountIsWindow(hits: seq<Hit>, key: string, lo: real, hi: real)
    requires NoneLater(hits, hi)
    ensures CountIn(hits, key, lo, hi) == |After(Times(hits, key), lo)|
  {
    if hits != [] {
      var n := |hits| - 1;
      assert NoneLater(hits[..n], hi);
      CountIsWindow(hits[..n], key, lo, hi);
      if hits[n].key == key {
        AfterAppend(Times(hits[..n], key), hits[n].time, lo);
      } else {
        assert Times(hits, key) == Times(hits[..n], key);
      }
    }
  }

  // ---- Invariant ----

  /** A deque and a list of accepted times that agree from a cutoff on; before it the deque may hold
      elements no longer counted, and the list elements already popped. */
  ghost predicate Agree(bucket: seq<real>, times: seq<real>, clock: real, cutoff: real) {
    UpToTime(bucket, clock) && After(bucket, cutoff) == After(times, cutoff)
  }

  ghost predicate BucketOk(window: real, st: State, key: string) {
    Agree(Bucket(st.buckets, key), Times(st.accepted, key), st.clock, st.clock - window)
  }

  /** No accepted request was one too many at its own time. */
  ghost predicate HitOk(window: real, hits: seq<Hit>, i: nat)
    requires i < |hits|
  {
    CountIn(hits[..i + 1], hits[i].key, hits[i].time - window, hits[i].time) <= Max(hits[i].limit, 0)
  }

  ghost predicate HitsOk(window: real, hits: seq<Hit>, clock: real) {
    && (forall i {:trigger HitOk(window, hits, i)} :: 0 <= i < |hits| ==> HitOk(window, hits, i))
    && NoneLater(hits, clock)
    && (forall i, j :: 0 <= i < j < |hits| ==> hits[i].time <= hits[j].time)
  }

  ghost predicate Inv(window: real, st: State) {
    HitsOk(window, st.accepted, st.clock) && forall key {:trigger BucketOk(window, st, key)} ::
        BucketOk(window, st, key)
  }

  lemma Later(window: real, st: State, key: string, now: real)
    requires BucketOk(window, st, key) && st.clock <= now
    ensures BucketOk(window, st.(clock := now), key)
  {
    var bucket, times := Bucket(st.buckets, key), Times(st.accepted, key);
    AfterAfter(bucket, st.clock - window, now - window);
    AfterAfter(times, st.clock - window, now - window);
  }

  /** What the limiter looks at is the window of the full history. */
  lemma BucketIsWindow(window: real, st: State, key: string, now: real)
    requires BucketOk(window, st, key) && st.clock <= now
    ensures Prune(Bucket(st.buckets, key), now - window) == After(Times(st.accepted, key), now - window)
  {
    Later(window, st, key, now);
    PruneIsAfter(Bucket(st.buckets, key), now - window);
  }

  lemma AgreePush(bucket: seq<real>, times: seq<real>, clock: real, cutoff: real, now: real)
    requires Agree(bucket, times, clock, cutoff) && clock <= now
    ensures Agree(bucket + [now], times + [now], now, cutoff)
  {
    AfterAppend(bucket, now, cutoff);
    AfterAppend(times, now, cutoff);
    assert UpToTime(bucket + [now], now);
  }

  lemma AgreePrune(window: real, st: State, key: string, now: real)
    requires BucketOk(window, st, key) && st.clock <= now
    ensures Agree(Prune(Bucket(st.buckets, key), now - window), Times(st.accepted, key), st.clock, now - window)
  {
    BucketIsWindow(window, st, key, now);
    PruneSorted(Bucket(st.buckets, key), now - window, st.clock);
    AfterAfter(Times(st.accepted, key), now - window, now - window);
  }

  lemma AdmitBucket(window: real, st: State, key: string, limit: int, now: real)
    requires BucketOk(window, st, key) && st.clock <= now
    ensures BucketOk(window, Admit(st, window, key, limit, now).0, key)
  {
    var bucket, times := Prune(Bucket(st.buckets, key), now - window), Times(st.accepted, key);
    AgreePrune(window, st, key, now);
    if |bucket| >= limit {
      assert Agree(bucket, times, now, now - window);
    } else {
      AgreePush(bucket, times, st.clock, now - window, now);
      TimesAppend(st.accepted, Hit(key, now, limit), key);
    }
  }

  lemma AdmitOther(window: real, st: State, key: string, limit: int, now: real, other: string)
    requires BucketOk(window, st, other) && st.clock <= now && other != key
    ensures BucketOk(window, Admit(st, window, key, limit, now).0, other)
  {
    Later(window, st, other, now);
    OtherKept(window, st, key, limit, now, other);
  }

  lemma OtherKept(window: real, st: State, key: string, limit: int, now: real, other: string)
    requires other != key
    ensures var st' := Admit(st, window, key, limit, now).0;
            && Bucket(st'.buckets, other) == Bucket(st.buckets, other)
            && Times(st'.accepted, other) == Times(st.accepted, other) && st'.clock == now
  {
    TimesAppend(st.accepted, Hit(key, now, limit), other);
  }

  /** The decision is the one the full history gives. */
  lemma AdmitExact(window: real, st: State, key: string, limit: int, now: real)
    requires BucketOk(window, st, key) && st.clock <= now && NoneLater(st.accepted, st.clock)
    ensures Admit(st, window, key, limit, now).1 <==> CountIn(st.accepted, key, now - window, now) < limit
  {
    BucketIsWindow(window, st, key, now);
    CountIsWindow(st.accepted, key, now - window, now);
  }

  /** A deque that is its key's accepted history, filtered to the window that ends now. */
  predicate IsWindow(window: real, st: State, key: string) {
    Bucket(st.buckets, key) == After(Times(st.accepted, key), st.clock - window)
  }

  lemma AdmitWindow(window: real, st: State, key: string, limit: int, now: real)
    requires BucketOk(window, st, key) && st.clock <= now && window > 0.0
    ensures IsWindow(window, Admit(st, window, key, limit, now).0, key)
  {
    var st' := Admit(st, window, key, limit, now).0;
    var bucket := Prune(Bucket(st.buckets, key), now - window);
    BucketIsWindow(window, st, key, now);
    if |bucket| >= limit {
      assert Bucket(st'.buckets, key) == bucket && st'.accepted == st.accepted;
    } else {
      WindowPush(st.accepted, Hit(key, now, limit), now - window);
      assert Bucket(st'.buckets, key) == bucket + [now];
    }
  }

  lemma WindowPush(hits: seq<Hit>, h: Hit, cutoff: real)
    requires cutoff < h.time
    ensures After(Times(hits + [h], h.key), cutoff) == After(Times(hits, h.key), cutoff) + [h.time]
  {
    TimesAppend(hits, h, h.key);
    AfterAppend(Times(hits, h.key), h.time, cutoff);
  }

  lemma HitOkPrefix(window: real, hits: seq<Hit>, hits': seq<Hit>, i: nat)
    requires i < |hits| && hits <= hits' && HitOk(window, hits, i)
    ensures HitOk(window, hits', i)
  {
    assert hits'[..i + 1] == hits[..i + 1];
  }

  lemma NewHitOk(window: real, hits: seq<Hit>, h: Hit)
    requires CountIn(hits, h.key, h.time - window, h.time) < h.limit
    ensures HitOk(window, hits + [h], |hits|)
  {
    assert (hits + [h])[..|hits| + 1] == hits + [h] && (hits + [h])[..|hits|] == hits;
  }

  lemma AdmitHits(window: real, st: State, key: string, limit: int, now: real)
    requires HitsOk(window, st.accepted, st.clock) && BucketOk(window, st, key) && st.clock <= now
    ensures HitsOk(window, Admit(st, window, key, limit, now).0.accepted, now)
  {
    var hits, hits' := st.accepted, Admit(st, window, key, limit, now).0.accepted;
    AdmitExact(window, st, key, limit, now);
    forall i | 0 <= i < |hits'| ensures HitOk(window, hits', i) {
      if i < |hits| {
        HitOkPrefix(window, hits, hits', i);
      } else {
        NewHitOk(window, hits, Hit(key, now, limit));
      }
    }
  }

  lemma AdmitOk(window: real, st: State, key: string, limit: int, now: real)
    requires Inv(window, st) && st.clock <= now
    ensures Inv(window, Admit(st, window, key, limit, now).0)
  {
    assert BucketOk(window, st, key);
    AdmitHits(window, st, key, limit, now);
    forall other ensures BucketOk(window, Admit(st, window, key, limit, now).0, other) {
      assert BucketOk(window, st, other);
      if other == key {
        AdmitBucket(window, st, key, limit, now);
      } else {
        AdmitOther(window, st, key, limit, now, other);
      }
    }
  }

  lemma TickOk(window: real, st: State, now: real)
    requires Inv(window, st) && st.clock <= now
    ensures Inv(window, st.(clock := now))
  {
    forall key ensures BucketOk(window, st.(clock := now), key) {
      assert BucketOk(window, st, key);
      Later(window, st, key, now);
    }
  }

  /** In every run with monotone time, after every request and for every key. */
  lemma {:induction false} EveryRun(s: Settings, start: real, requests: seq<Request>)
    requires Monotone(start, requests)
    ensures Inv(s.window, Run(s, start, requests))
    ensures Run(s, start, requests).clock == Latest(start, requests)
  {
    if requests != [] {
      var n := |requests| - 1;
      EveryRun(s, start, requests[..n]);
      var st, r := Run(s, start, requests[..n]), requests[n];
      if Limited(s, r) {
        AdmitOk(s.window, st, Key(r), LimitForPath(s, r.path), r.now);
      } else {
        TickOk(s.window, st, r.now);
      }
    }
  }

  /** The decision is the one the unpruned history gives: a limited request is turned
      away exactly when the window ending now already holds `limit` accepted ones. */
  lemma DecisionExact(s: Settings, start: real, requests: seq<Request>, r: Request)
    requires Monotone(start, requests + [r]) && Limited(s, r)
    ensures var st := Run(s, start, requests);
            Step(s, st, r).1 <==> CountIn(st.accepted, Key(r), r.now - s.window, r.now) < LimitForPath(s, r.path)
  {
    assert (requests + [r])[..|requests|] == requests;
    EveryRun(s, start, requests);
    assert BucketOk(s.window, Run(s, start, requests), Key(r));
    AdmitExact(s.window, Run(s, start, requests), Key(r), LimitForPath(s, r.path), r.now);
  }

  /** The deque a limited request leaves behind is its key's accepted history, filtered to the window. */
  lemma DequeIsWindow(s: Settings, start: real, requests: seq<Request>, r: Request)
    requires Monotone(start, requests + [r]) && Limited(s, r) && s.window > 0.0
    ensures IsWindow(s.window, Step(s, Run(s, start, requests), r).0, Key(r))
  {
    assert (requests + [r])[..|requests|] == requests;
    EveryRun(s, start, requests);
    assert BucketOk(s.window, Run(s, start, requests), Key(r));
    AdmitWindow(s.window, Run(s, start, requests), Key(r), LimitForPath(s, r.path), r.now);
  }

  // ---- Every instant ----

  lemma {:induction false} CountMonotone(hits: seq<Hit>, key: string, lo: real, hi: real, lo': real, hi': real)
    requires forall i :: 0 <= i < |hits| && lo < hits[i].time <= hi ==> lo' < hits[i].time <= hi'
    ensures CountIn(hits, key, lo, hi) <= CountIn(hits, key, lo', hi')
  {
    if hits != [] {
      CountMonotone(hits[..|hits| - 1], key, lo, hi, lo', hi');
    }
  }

  /** Any window that is not empty is within the limit of its latest request. */
  lemma {:induction false} WindowBound(window: real, hits: seq<Hit>, clock: real, key: string, t: real) returns (i: nat)
    requires HitsOk(window, hits, clock) && CountIn(hits, key, t - window, t) > 0
    ensures i < |hits| && hits[i].key == key && t - window < hits[i].time <= t
    ensures CountIn(hits, key, t - window, t) <= Max(hits[i].limit, 0)
  {
    var n := |hits| - 1;
    if hits[n].key == key && t - window < hits[n].time <= t {
      i := n;
      assert hits[..n + 1] == hits;
      assert HitOk(window, hits, n);
      CountMonotone(hits, key, t - window, t, hits[n].time - window, hits[n].time);
    } else {
      forall k | 0 <= k < n ensures HitOk(window, hits[..n], k) {
        assert HitOk(window, hits, k);
        assert hits[..n][..k + 1] == hits[..k + 1];
      }
      i := WindowBound(window, hits[..n], clock, key, t);
    }
  }

  /** Every accepted request in the history is one of the requests. */
  lemma {:induction false} HitOrigin(s: Settings, start: real, requests: seq<Request>, i: nat) returns (k: nat)
    requires i < |Run(s, start, requests).accepted|
    ensures k < |requests| && Limited(s, requests[k])
    ensures Run(s, start, requests).accepted[i] == Hit(Key(requests[k]), requests[k].now,
                                                       LimitForPath(s, requests[k].path))
  {
    var n := |requests| - 1;
    if i < |Run(s, start, requests[..n]).accepted| {
      k := HitOrigin(s, start, requests[..n], i);
    } else {
      k := n;
    }
  }

  /** No address in the run extends this one or is extended by it. */
  ghost predicate Apart(requests: seq<Request>, ip: string) {
    forall i :: 0 <= i < |requests| ==> !Nested(ip, ClientIp(requests[i]))
  }

  /** For every client and path and for every instant, not only request times: the accepted
      requests in (t - window, t] are at most the path's limit. */
  lemma SlidingWindow(s: Settings, start: real, requests: seq<Request>, r: Request, t: real)
    requires Monotone(start, requests) && Limited(s, r) && Apart(requests, ClientIp(r))
    ensures CountIn(Run(s, start, requests).accepted, Key(r), t - s.window, t) <= Max(LimitForPath(s, r.path), 0)
  {
    var st := Run(s, start, requests);
    EveryRun(s, start, requests);
    if CountIn(st.accepted, Key(r), t - s.window, t) > 0 {
      var i := WindowBound(s.window, st.accepted, st.clock, Key(r), t);
      var k := HitOrigin(s, start, requests, i);
      KeyFixesLimit(s, r, requests[k]);
    }
  }

  // ---- Clients and paths ----

  /** A request of this client for this path, whatever follows a question mark, that is subject to a limit. */
  predicate AsksFor(s: Settings, r: Request, ip: string, path: string) {
    s.enabled && "/api/" <= r.path && ClientIp(r) == ip && UpTo(r.path, '?') == path
  }

  /** How many of the requests of this client for this path, at times in (lo, hi], passed. */
  function Passed(s: Settings, start: real, requests: seq<Request>, ip: string, path: string, lo: real, hi: real): nat
  {
    if requests == [] then 0
    else
      var before, r := requests[..|requests| - 1], requests[|requests| - 1];
      Passed(s, start, before, ip, path, lo, hi)
      + if AsksFor(s, r, ip, path) && lo < r.now <= hi && Step(s, Run(s, start, before), r).1 then 1 else 0
  }

  lemma SameKeyExactly(s: Settings, r: Request, other: Request)
    requires Limited(s, r) && Limited(s, other) && !Nested(ClientIp(r), ClientIp(other))
    ensures Key(other) == Key(r) <==> AsksFor(s, other, ClientIp(r), UpTo(r.path, '?'))
  {
    if Key(other) == Key(r) {
      KeySplits(r, other);
    }
  }

  lemma {:induction false} PassedCounted(s: Settings, start: real, requests: seq<Request>, r: Request, lo: real,
                                         hi: real)
    requires Limited(s, r) && Apart(requests, ClientIp(r))
    ensures Passed(s, start, requests, ClientIp(r), UpTo(r.path, '?'), lo, hi)
        == CountIn(Run(s, start, requests).accepted, Key(r), lo, hi)
  {
    if requests != [] {
      var n := |requests| - 1;
      assert Apart(requests[..n], ClientIp(r));
      PassedCounted(s, start, requests[..n], r, lo, hi);
      var other := requests[n];
      if Limited(s, other) {
        SameKeyExactly(s, r, other);
        CountAppend(Run(s, start, requests[..n]).accepted,
                    Hit(Key(other), other.now, LimitForPath(s, other.path)), Key(r), lo, hi);
      }
    }
  }

  lemma CountAppend(hits: seq<Hit>, h: Hit, key: string, lo: real, hi: real)
    ensures CountIn(hits + [h], key, lo, hi)
        == CountIn(hits, key, lo, hi) + if h.key == key && lo < h.time <= hi then 1 else 0
  {
    assert (hits + [h])[..|hits|] == hits;
  }

  /** For a client whose address is not nested with another of the run: its request for a path passes exactly
      if fewer than the path's limit of its requests for that path passed in the window that ends now. */
  lemma PassesExactly(s: Settings, start: real, requests: seq<Request>, r: Request)
    requires Monotone(start, requests + [r]) && s.enabled && "/api/" <= r.path && Apart(requests, ClientIp(r))
    ensures Step(s, Run(s, start, requests), r).1
       <==> Passed(s, start, requests, ClientIp(r), UpTo(r.path, '?'), r.now - s.window, r.now)
              < (if "/api/auth/" <= r.path then s.authLimit
                 else if "/api/files/send" <= r.path then s.uploadLimit else s.generalLimit)
  {
    DecisionExact(s, start, requests, r);
    PassedCounted(s, start, requests, r, r.now - s.window, r.now);
    LimitExactly(s, r.path);
  }

  /** And so at no instant more than the path's limit of its requests passed in the window that ends then. */
  lemma ClientWindow(s: Settings, start: real, requests: seq<Request>, r: Request, t: real)
    requires Monotone(start, requests) && s.enabled && "/api/" <= r.path && Apart(requests, ClientIp(r))
    ensures Passed(s, start, requests, ClientIp(r), UpTo(r.path, '?'), t - s.window, t)
         <= Max(0, if "/api/auth/" <= r.path then s.authLimit
                   else if "/api/files/send" <= r.path then s.uploadLimit else s.generalLimit)
  {
    SlidingWindow(s, start, requests, r, t);
    PassedCounted(s, start, requests, r, t - s.window, t);
    LimitExactly(s, r.path);
  }

  /** What is not under /api/, or with the limiter off, always passes and is not counted. */
  lemma Unlimited(s: Settings, st: State, r: Request)
    requires !s.enabled || !("/api/" <= r.path)
    ensures Step(s, st, r) == (st.(clock := r.now), true)
  {}

  // ---- When the bound fails ----

  function Copies(r: Request, n: nat): seq<Request> {
    if n == 0 then [] else Copies(r, n - 1) + [r]
  }

  lemma CopiesStep(s: Settings, r: Request, n: nat)
    requires n > 0
    ensures Run(s, r.now, Copies(r, n)) == Step(s, Run(s, r.now, Copies(r, n - 1)), r).0
  {
    assert Copies(r, n)[..|Copies(r, n)| - 1] == Copies(r, n - 1);
  }

  lemma {:induction false} CopiesMonotone(r: Request, n: nat)
    ensures |Copies(r, n)| == n && Monotone(r.now, Copies(r, n)) && Latest(r.now, Copies(r, n)) == r.now
  {
    if n > 0 {
      CopiesMonotone(r, n - 1);
      assert Copies(r, n)[..n - 1] == Copies(r, n - 1);
    }
  }

  lemma AdmitCounts(window: real, st: State, key: string, limit: int)
    requires BucketOk(window, st, key) && NoneLater(st.accepted, st.clock) && window > 0.0
    requires CountIn(st.accepted, key, st.clock - window, st.clock) < limit
    ensures var st' := Admit(st, window, key, limit, st.clock).0;
            CountIn(st'.accepted, key, st.clock - window, st.clock) ==
                CountIn(st.accepted, key, st.clock - window, st.clock) + 1
  {
    AdmitExact(window, st, key, limit, st.clock);
    OneMoreCounted(st.accepted, Hit(key, st.clock, limit), st.clock - window);
  }

  function Burst(window: real, now: real, key: string, limit: int, n: nat): State {
    if n == 0 then State(map[], [], now) else Admit(Burst(window, now, key, limit, n - 1), window, key, limit, now).0
  }

  lemma BurstStep(window: real, st: State, key: string, limit: int, n: nat) returns (st': State)
    requires window > 0.0 && n < limit && Inv(window, st)
    requires CountIn(st.accepted, key, st.clock - window, st.clock) == n
    ensures st' == Admit(st, window, key, limit, st.clock).0
    ensures Inv(window, st') && st'.clock == st.clock
        && CountIn(st'.accepted, key, st.clock - window, st.clock) == n + 1
  {
    assert BucketOk(window, st, key);
    AdmitOk(window, st, key, limit, st.clock);
    AdmitCounts(window, st, key, limit);
    st' := Admit(st, window, key, limit, st.clock).0;
  }

  lemma {:induction false} BurstCounts(window: real, now: real, key: string, limit: int, n: nat) returns (st: State)
    requires window > 0.0 && n <= limit
    ensures st == Burst(window, now, key, limit, n)
    ensures Inv(window, st) && st.clock == now && CountIn(st.accepted, key, now - window, now) == n
  {
    if n == 0 {
      st := State(map[], [], now);
    } else {
      var before := BurstCounts(window, now, key, limit, n - 1);
      st := BurstStep(window, before, key, limit, n - 1);
    }
  }

  lemma {:induction false} CopiesBurst(s: Settings, r: Request, key: string, limit: int, n: nat)
    requires Limited(s, r) && key == Key(r) && limit == LimitForPath(s, r.path)
    ensures Run(s, r.now, Copies(r, n)) == Burst(s.window, r.now, key, limit, n)
  {
    if n > 0 {
      CopiesBurst(s, r, key, limit, n - 1);
      CopiesStep(s, r, n);
    }
  }

  /** Requests of one key at one instant are all accepted, up to their own limit. */
  lemma CopiesAccepted(s: Settings, r: Request, key: string, n: nat)
    requires Limited(s, r) && s.window > 0.0 && n == LimitForPath(s, r.path) && key == Key(r)
    ensures CountIn(Run(s, r.now, Copies(r, n)).accepted, key, r.now - s.window, r.now) == n
  {
    var st := BurstCounts(s.window, r.now, key, n, n);
    CopiesBurst(s, r, key, n, n);
  }

  lemma OneMoreCounted(hits: seq<Hit>, h: Hit, lo: real)
    requires lo < h.time
    ensures CountIn(hits + [h], h.key, lo, h.time) == CountIn(hits, h.key, lo, h.time) + 1
  {
    assert (hits + [h])[..|hits|] == hits;
  }

  /** The bound that SlidingWindow states, for requests from two addresses. */
  ghost predicate WindowHolds(s: Settings, start: real, requests: seq<Request>, r: Request, t: real, ip: string,
                              ip': string) {
    Monotone(start, requests) && Limited(s, r) && ClientIp(r) == ip
    && (forall i :: 0 <= i < |requests| ==> ClientIp(requests[i]) in {ip, ip'}) ==>
      CountIn(Run(s, start, requests).accepted, Key(r), t - s.window, t) <= Max(LimitForPath(s, r.path), 0)
  }

  /** Signing in is limited more strictly than everything else. */
  predicate StrictSignIn(s: Settings) {
    s.enabled && s.window > 0.0 && 0 <= s.authLimit < s.uploadLimit && s.authLimit < s.generalLimit
  }

  lemma CopiesFrom(r: Request, n: nat)
    ensures forall i :: 0 <= i < |Copies(r, n)| ==> Copies(r, n)[i] == r
  {
    if n > 0 {
      CopiesFrom(r, n - 1);
    }
  }

  /** A burst of requests under the larger limit fills the window of a sign-in key beyond its limit. */
  lemma BurstExceeds(s: Settings, signIn: Request, other: Request, ip: string, ip': string)
    requires StrictSignIn(s) && From(signIn, ip) && From(other, ip') && Key(signIn) == Key(other)
    requires LimitForPath(s, signIn.path) == s.authLimit && LimitForPath(s, other.path) > s.authLimit
    ensures !WindowHolds(s, other.now, Copies(other, LimitForPath(s, other.path)), signIn, other.now, ip, ip')
  {
    var n := LimitForPath(s, other.path);
    var requests, key := Copies(other, n), Key(signIn);
    CopiesAccepted(s, other, key, n);
    CopiesMonotone(other, n);
    CopiesFrom(other, n);
    assert forall i :: 0 <= i < |requests| ==> ClientIp(requests[i]) in {ip, ip'};
    Exceeded(s, other.now, requests, signIn, other.now, ip, ip', key, n);
  }

  lemma Exceeded(s: Settings, start: real, requests: seq<Request>, r: Request, t: real, ip: string, ip': string,
                 key: string, n: nat)
    requires Monotone(start, requests) && Limited(s, r) && ClientIp(r) == ip && key == Key(r)
    requires forall i :: 0 <= i < |requests| ==> ClientIp(requests[i]) in {ip, ip'}
    requires CountIn(Run(s, start, requests).accepted, key, t - s.window, t) == n > Max(LimitForPath(s, r.path), 0)
    ensures !WindowHolds(s, start, requests, r, t, ip, ip')
  {}

  lemma AuthLimit(s: Settings, path: string)
    ensures LimitForPath(s, "/api/auth/" + path) == s.authLimit
  {
    assert "/api/auth/" <= "/api/auth/" + path;
  }

  lemma ShortPath(s: Settings)
    ensures LimitForPath(s, API) == s.generalLimit
  {}

  /** From nested addresses, either the shorter one's path or the longer one's is a sign-in path, and
      the other is not: one of the two has its sign-in window exceeded by the other. */
  lemma NestedExceeds(s: Settings, short: string, long: string)
    requires StrictSignIn(s) && Extends(short, long)
    ensures exists start, requests, r, t ::
              !WindowHolds(s, start, requests, r, t, short, long) || !WindowHolds(s, start, requests, r, t, long, short)
  {
    var signIn := "/api/auth/" + "";
    if StartsWith(Shared(short, long, API), "/api/auth/") {
      SharedKey(short, long, API, 0.0);
      ShortPath(s);
      BurstExceeds(s, Peer(short, Shared(short, long, API), 0.0), Peer(long, API, 0.0), short, long);
    } else {
      assert "/api/auth/" == API + "auth/";
      assert API <= signIn;
      SharedKey(short, long, signIn, 0.0);
      AuthLimit(s, "");
      SameStart(short, long, signIn);
      BurstExceeds(s, Peer(long, signIn, 0.0), Peer(short, Shared(short, long, signIn), 0.0), long, short);
    }
  }

  /** Whether the shared path is a sign-in path does not depend on what follows the address. */
  lemma SameStart(short: string, long: string, path: string)
    requires Extends(short, long)
    ensures StartsWith(Shared(short, long, path), "/api/auth/") ==> StartsWith(Shared(short, long, API), "/api/auth/")
  {
    var rest, rest' := Shared(short, long, path), Shared(short, long, API);
    var n := |long| - |short| - 1;
    if StartsWith(rest, "/api/auth/") {
      assert rest[..10] == "/api/auth/";
      assert rest[n] == ':' && n >= 5;
      assert forall i :: 0 <= i < 10 ==> "/api/auth/"[i] != ':';
      assert n >= 10;
      assert rest'[..10] == rest[..10];
    }
  }

  /** For two addresses: every window of each keeps its path's limit, whatever the two of them request,
      exactly when neither extends the other. */
  lemma WindowExactly(s: Settings, ip: string, ip': string)
    requires StrictSignIn(s) && ip != ip'
    ensures (forall start, requests, r, t ::
             WindowHolds(s, start, requests, r, t, ip, ip') && WindowHolds(s, start, requests, r, t, ip', ip))
       <==> !Nested(ip, ip')
  {
    if Extends(ip, ip') {
      NestedExceeds(s, ip, ip');
    } else if Extends(ip', ip) {
      NestedExceeds(s, ip', ip);
    } else {
      forall start, requests, r, t ensures WindowHolds(s, start, requests, r, t, ip, ip')
          && WindowHolds(s, start, requests, r, t, ip', ip) {
        ApartHolds(s, start, requests, r, t, ip, ip');
        ApartHolds(s, start, requests, r, t, ip', ip);
      }
    }
  }

  lemma ApartHolds(s: Settings, start: real, requests: seq<Request>, r: Request, t: real, ip: string, ip': string)
    requires !Nested(ip, ip')
    ensures WindowHolds(s, start, requests, r, t, ip, ip')
  {
    if Monotone(start, requests) && Limited(s, r) && ClientIp(r) == ip
       && forall i :: 0 <= i < |requests| ==> ClientIp(requests[i]) in {ip, ip'} {
      assert Apart(requests, ip);
      SlidingWindow(s, start, requests, r, t);
    }
  }

  // ---- The middleware ----

  class InMemoryRateLimitMiddleware {
    const settings: Settings
    var buckets: Buckets
    ghost var accepted: seq<Hit>
    ghost var clock: real

    ghost function History(): State
      reads this
    {
      State(buckets, accepted, clock)
    }

    constructor (settings: Settings, ghost start: real)
      ensures this.settings == settings && History() == State(map[], [], start)
    {
      this.settings := settings;
      buckets, accepted, clock := map[], [], start;
    }

    /** dispatch; false is the 429 response. */
    method Dispatch(r: Request) returns (passed: bool)
      modifies this
      ensures History() == Step(settings, old(History()), r).0 && passed == Step(settings, old(History()), r).1
    {
      clock := r.now;
      if !settings.enabled || !StartsWith(r.path, "/api/") {
        return true;
      }
      var limit := LimitForPath(settings, r.path);
      var key := Key(r);
      var bucket := Bucket(buckets, key);
      while bucket != [] && bucket[0] <= r.now - settings.window
        invariant Prune(bucket, r.now - settings.window) == Prune(Bucket(old(buckets), key), r.now - settings.window)
      {
        bucket := bucket[1..];
      }
      if |bucket| >= limit {
        buckets := buckets[key := bucket];
        return false;
      }
      buckets := buckets[key := bucket + [r.now]];
      accepted := accepted + [Hit(key, r.now, limit)];
      return true;
    }
  }
}
