/** The per-address request limiter (src/api.rs:27-28, 832-871): a token bucket for each address, and
    the eviction of idle buckets. Times are seconds on one clock that does not run backwards. */
module RateLimit {

  const BURST: real := 20.0
  const PER_MINUTE: real := 60.0
  const IDLE: real := 600.0

  datatype Bucket = Bucket(tokens: real, at: real)

  function Min(a: real, b: real): real {
    if a < b then a else b
  }

  /** Time runs from `at`, and counts as zero when `now` is earlier. */
  function Elapsed(at: real, now: real): real {
    if now < at then 0.0 else now - at
  }

  function Refilled(b: Bucket, now: real): real {
    Min(b.tokens + Elapsed(b.at, now) * (PER_MINUTE / 60.0), BURST)
  }

  predicate Allows(b: Bucket, now: real) {
    Refilled(b, now) >= 1.0
  }

  function Called(b: Bucket, now: real): Bucket {
    Bucket(if Allows(b, now) then Refilled(b, now) - 1.0 else Refilled(b, now), now)
  }

  // --- One address -----------------------------------------------------------------

  predicate Ordered(start: real, times: seq<real>) {
    && (forall i :: 0 <= i < |times| ==> start <= times[i])
    && (forall i, j :: 0 <= i < j < |times| ==> times[i] <= times[j])
  }

  function After(b: Bucket, times: seq<real>): Bucket
    decreases |times|
  {
    if times == [] then b else After(Called(b, times[0]), times[1..])
  }

  /** How many of the calls are allowed. */
  function Allowed(b: Bucket, times: seq<real>): nat
    decreases |times|
  {
    if times == [] then 0 else (if Allows(b, times[0]) then 1 else 0) + Allowed(Called(b, times[0]), times[1..])
  }

  /** What is allowed is paid for by the tokens at hand and those that come in. */
  lemma {:induction false} AllowedArePaid(b: Bucket, times: seq<real>)
    requires 0.0 <= b.tokens <= BURST && Ordered(b.at, times) && times != []
    ensures var end := After(b, times);
            && 0.0 <= end.tokens <= BURST && end.at == times[|times| - 1]
            && Allowed(b, times) as real + end.tokens <= Refilled(b, times[0]) + (times[|times| - 1] - times[0])
    decreases |times|
  {
    var rest, next := times[1..], Called(b, times[0]);
    if rest != [] {
      AllowedArePaid(next, rest);
    }
  }

  /** In any window of `t` seconds, at most 20 + t requests are allowed, whatever came before it. */
  lemma WindowBound(history: seq<real>, window: seq<real>, start: real, t: real)
    requires Ordered(start, history + window) && window != []
    requires window[|window| - 1] - window[0] <= t
    ensures Allowed(After(Bucket(BURST, start), history), window) as real <= 20.0 + t
  {
    hide After, Allowed;
    var b := Bucket(BURST, start);
    assert After(b, []) == b by { AfterNothing(b); }
    assert forall i :: 0 <= i < |history| ==> (history + window)[i] == history[i];
    assert forall i :: 0 <= i < |window| ==> (history + window)[|history| + i] == window[i];
    if history != [] {
      AllowedArePaid(b, history);
      assert history[|history| - 1] <= window[0];
    }
    AllowedArePaid(After(b, history), window);
  }

  lemma AfterNothing(b: Bucket)
    ensures After(b, []) == b
  {
  }

  /** As long as a bucket cannot have filled up, every token is accounted for: those at hand and one for each
      second that went by are spent on allowed requests or still there, and none are left when a request is
      refused. */
  lemma {:induction false} TokensConserved(b: Bucket, times: seq<real>)
    requires 0.0 <= b.tokens && Ordered(b.at, times) && times != []
    requires b.tokens + (times[|times| - 1] - b.at) <= 20.0
    ensures var end, last := After(b, times), |times| - 1;
            && Allowed(b, times) as real + end.tokens == b.tokens + (times[last] - b.at)
            && end.at == times[last] && 0.0 <= end.tokens
            && (!Allows(After(b, times[..last]), times[last]) ==> end.tokens < 1.0)
    decreases |times|
  {
    hide Allows;
    var rest, next := times[1..], Called(b, times[0]);
    CalledIs(b, times[0]);
    if rest != [] {
      TokensConserved(next, rest);
      assert times[..|times| - 1][1..] == rest[..|rest| - 1];
    }
  }

  lemma CalledIs(b: Bucket, now: real)
    requires 0.0 <= b.tokens && b.at <= now && b.tokens + (now - b.at) <= 20.0
    ensures Allows(b, now) <==> b.tokens + (now - b.at) >= 1.0
    ensures Called(b, now) == Bucket(b.tokens + (now - b.at) - if Allows(b, now) then 1.0 else 0.0, now)
  {
  }

  /** A bucket admits as many requests at once as it holds tokens, so a fresh one admits twenty. */
  lemma {:induction false} BurstIsAllowed(tokens: nat, now: real, calls: seq<real>)
    requires |calls| <= tokens <= 20 && forall i :: 0 <= i < |calls| ==> calls[i] == now
    ensures Allowed(Bucket(tokens as real, now), calls) == |calls|
    decreases |calls|
  {
    if calls != [] {
      assert Called(Bucket(tokens as real, now), calls[0]) == Bucket((tokens - 1) as real, now);
      BurstIsAllowed(tokens - 1, now, calls[1..]);
    }
  }

  /** A caller that waits a second between requests is never refused. */
  lemma {:induction false} SlowCallerIsAllowed(b: Bucket, times: seq<real>)
    requires 0.0 <= b.tokens <= BURST
    requires times != [] ==> b.tokens >= 1.0 || b.at + 1.0 <= times[0]
    requires forall i :: 0 <= i < |times| - 1 ==> times[i] + 1.0 <= times[i + 1]
    ensures Allowed(b, times) == |times|
    decreases |times|
  {
    if times != [] {
      assert forall i :: 0 <= i < |times| - 1 ==> times[1..][i] == times[i + 1];
      assert |times| > 1 ==> times[0] + 1.0 <= times[0 + 1];
      forall i | 0 <= i < |times| - 2 ensures times[1..][i] + 1.0 <= times[1..][i + 1] {
        assert times[i + 1] + 1.0 <= times[i + 1 + 1];
      }
      SlowCallerIsAllowed(Called(b, times[0]), times[1..]);
    }
  }

  // --- All addresses ------------------------------------------------------------------

  datatype Request = Request(ip: string, now: real)

  function Live(buckets: map<string, Bucket>, now: real): map<string, Bucket> {
    map ip | ip in buckets && Elapsed(buckets[ip].at, now) < IDLE :: buckets[ip]
  }

  function BucketOf(buckets: map<string, Bucket>, r: Request): Bucket {
    if r.ip in buckets then buckets[r.ip] else Bucket(BURST, r.now)
  }

  /** The limiter's map after a request, with and without eviction. */
  function Serve(buckets: map<string, Bucket>, r: Request, evict: bool): map<string, Bucket> {
    var kept := if evict then Live(buckets, r.now) else buckets;
    kept[r.ip := Called(BucketOf(kept, r), r.now)]
  }

  function Decision(buckets: map<string, Bucket>, r: Request, evict: bool): bool {
    Allows(BucketOf(if evict then Live(buckets, r.now) else buckets, r), r.now)
  }

  function Decisions(buckets: map<string, Bucket>, rs: seq<Request>, evict: bool): seq<bool>
    decreases |rs|
  {
    if rs == [] then [] else [Decision(buckets, rs[0], evict)] + Decisions(Serve(buckets, rs[0], evict), rs[1..], evict)
  }

  predicate InOrder(start: real, rs: seq<Request>) {
    && (forall i :: 0 <= i < |rs| ==> start <= rs[i].now)
    && (forall i, j :: 0 <= i < j < |rs| ==> rs[i].now <= rs[j].now)
  }

  /** The evicting map lacks only buckets that are idle for ten minutes. */
  ghost predicate Agree(evicting: map<string, Bucket>, all: map<string, Bucket>, now: real) {
    && (forall ip <- evicting :: ip in all && all[ip] == evicting[ip])
    && (forall ip <- all :: 0.0 <= all[ip].tokens <= BURST && all[ip].at <= now)
    && (forall ip <- all :: ip !in evicting ==> now - all[ip].at >= IDLE)
  }

  lemma ServeAgrees(evicting: map<string, Bucket>, all: map<string, Bucket>, start: real, r: Request)
    requires Agree(evicting, all, start) && start <= r.now
    ensures Decision(evicting, r, true) == Decision(all, r, false)
    ensures Agree(Serve(evicting, r, true), Serve(all, r, false), r.now)
  {
    var kept := Live(evicting, r.now);
    if r.ip in all && r.ip !in kept {
      assert r.now - all[r.ip].at >= IDLE;
      assert Refilled(all[r.ip], r.now) == BURST;
    }
  }

  /** What a request leaves in the map: its own bucket, and those of the others that were used within the last
      ten minutes. */
  lemma ServeMeans(buckets: map<string, Bucket>, r: Request, ip: string)
    requires forall ip <- buckets :: buckets[ip].at <= r.now
    ensures var next := Serve(buckets, r, true);
            && (ip in next <==> ip == r.ip || (ip in buckets && r.now < buckets[ip].at + 600.0))
            && (ip in next && ip != r.ip ==> next[ip] == buckets[ip])
  {
  }

  /** Eviction changes no decision, over any sequence of requests. */
  lemma {:induction false} EvictionIsInvisible(evicting: map<string, Bucket>, all: map<string, Bucket>,
                                                     start: real, rs: seq<Request>)
    requires Agree(evicting, all, start) && InOrder(start, rs)
    ensures Decisions(evicting, rs, true) == Decisions(all, rs, false)
    decreases |rs|
  {
    if rs != [] {
      ServeAgrees(evicting, all, start, rs[0]);
      EvictionIsInvisible(Serve(evicting, rs[0], true), Serve(all, rs[0], false), rs[0].now, rs[1..]);
    }
  }

  // --- The limiter's decisions, address by address -----------------------------------

  function MapAfter(buckets: map<string, Bucket>, rs: seq<Request>, evict: bool): map<string, Bucket>
    decreases |rs|
  {
    if rs == [] then buckets else MapAfter(Serve(buckets, rs[0], evict), rs[1..], evict)
  }

  lemma {:induction false} DecisionsConcat(buckets: map<string, Bucket>, a: seq<Request>, b: seq<Request>, evict: bool)
    ensures Decisions(buckets, a + b, evict) ==
            Decisions(buckets, a, evict) + Decisions(MapAfter(buckets, a, evict), b, evict)
    ensures |Decisions(buckets, a, evict)| == |a|
    decreases |a|
  {
    hide Serve, Decision;
    if a == [] {
      assert a + b == b;
    } else {
      assert (a + b)[0] == a[0] && (a + b)[1..] == a[1..] + b;
      DecisionsConcat(Serve(buckets, a[0], evict), a[1..], b, evict);
    }
  }

  /** When the address calls. */
  function TimesOf(rs: seq<Request>, ip: string): seq<real> {
    if rs == [] then []
    else (if rs[0].ip == ip then [rs[0].now] else []) + TimesOf(rs[1..], ip)
  }

  /** How many of the decisions let a request of the address in. */
  function Granted(decisions: seq<bool>, rs: seq<Request>, ip: string): nat
    requires |decisions| == |rs|
    decreases |rs|
  {
    if rs == [] then 0
    else (if rs[0].ip == ip && decisions[0] then 1 else 0) + Granted(decisions[1..], rs[1..], ip)
  }

  lemma {:induction false} TimesInOrder(start: real, rs: seq<Request>, ip: string)
    requires InOrder(start, rs)
    ensures Ordered(start, TimesOf(rs, ip))
    ensures forall t <- TimesOf(rs, ip) :: exists r :: r in rs && r.now == t
    decreases |rs|
  {
    if rs != [] {
      TimesInOrder(rs[0].now, rs[1..], ip);
      assert rs[0] in rs;
    }
  }

  lemma ServeFirst(buckets: map<string, Bucket>, rs: seq<Request>, evict: bool)
    requires rs != []
    ensures var rest := Decisions(Serve(buckets, rs[0], evict), rs[1..], evict);
            Decisions(buckets, rs, evict) == [Decision(buckets, rs[0], evict)] + rest
    ensures MapAfter(buckets, rs, evict) == MapAfter(Serve(buckets, rs[0], evict), rs[1..], evict)
  {
    hide Serve, Decision;
  }

  /** Without eviction an address is served by its own bucket, whatever the others do. */
  lemma {:induction false} OwnBucket(all: map<string, Bucket>, rs: seq<Request>, ip: string, b: Bucket)
    requires if ip in all then b == all[ip] else TimesOf(rs, ip) != [] ==> b == Bucket(BURST, TimesOf(rs, ip)[0])
    ensures |Decisions(all, rs, false)| == |rs|
    ensures Granted(Decisions(all, rs, false), rs, ip) == Allowed(b, TimesOf(rs, ip))
    decreases |rs|
  {
    hide Allows, Called;
    if rs != [] {
      var next := Serve(all, rs[0], false);
      ServeFirst(all, rs, false);
      assert Decisions(all, rs, false)[1..] == Decisions(next, rs[1..], false);
      if rs[0].ip == ip {
        assert TimesOf(rs, ip)[0] == rs[0].now && TimesOf(rs, ip)[1..] == TimesOf(rs[1..], ip);
        OwnBucket(next, rs[1..], ip, Called(b, rs[0].now));
      } else {
        assert TimesOf(rs, ip) == TimesOf(rs[1..], ip);
        OwnBucket(next, rs[1..], ip, b);
      }
    }
  }

  lemma {:induction false} MapStaysFull(all: map<string, Bucket>, start: real, rs: seq<Request>, end: real)
    requires InOrder(start, rs) && start <= end && forall r <- rs :: r.now <= end
    requires forall ip <- all :: 0.0 <= all[ip].tokens <= BURST && all[ip].at <= start
    ensures var m := MapAfter(all, rs, false); forall ip <- m :: 0.0 <= m[ip].tokens <= BURST && m[ip].at <= end
    decreases |rs|
  {
    if rs != [] {
      ServeFirst(all, rs, false);
      MapStaysFull(Serve(all, rs[0], false), rs[0].now, rs[1..], end);
    }
  }

  /** The limiter's promise: for any sequence of requests from any addresses, eviction included, at most
      20 + t requests of one address are let in within any window of t seconds. */
  lemma LimitPerAddress(history: seq<Request>, window: seq<Request>, start: real, t: real, ip: string)
    requires InOrder(start, history + window) && 0.0 <= t
    requires forall i, j :: 0 <= i < |window| && 0 <= j < |window| ==> window[j].now - window[i].now <= t
    ensures var decisions := Decisions(map[], history + window, true);
            && |decisions| == |history| + |window|
            && Granted(decisions[|history|..], window, ip) as real <= 20.0 + t
  {
    hide Decisions, Granted, MapAfter, Allowed, TimesOf;
    EvictionIsInvisible(map[], map[], start, history + window);
    DecisionsConcat(map[], history, window, false);
    var all := MapAfter(map[], history, false);
    DecisionsConcat(all, window, [], false);
    var times := TimesOf(window, ip);
    if window != [] {
      WindowInOrder(history, window, start);
      MapStaysFull(map[], start, history, window[0].now);
      TimesInOrder(window[0].now, window, ip);
      var b := if ip in all then all[ip] else Bucket(BURST, if times == [] then window[0].now else times[0]);
      OwnBucket(all, window, ip, b);
      if times == [] {
        NothingAllowed(b);
      } else {
        AllowedArePaid(b, times);
        assert times[0] in times && times[|times| - 1] in times;
      }
    } else {
      NothingGranted(ip);
    }
  }

  lemma WindowInOrder(history: seq<Request>, window: seq<Request>, start: real)
    requires InOrder(start, history + window) && window != []
    ensures InOrder(start, history) && InOrder(window[0].now, window) && start <= window[0].now
    ensures forall r <- history :: r.now <= window[0].now
  {
    var rs := history + window;
    assert forall i :: 0 <= i < |history| ==> rs[i] == history[i];
    assert forall i :: 0 <= i < |window| ==> rs[|history| + i] == window[i];
  }

  lemma NothingAllowed(b: Bucket)
    ensures Allowed(b, []) == 0
  {
  }

  lemma NothingGranted(ip: string)
    ensures Granted([], [], ip) == 0
  {
  }

  class RateLimiter {
    var buckets: map<string, Bucket>

    constructor ()
      ensures buckets == map[]
      ensures Agree(buckets, map[], 0.0)
    {
      buckets := map[];
    }

    method Admit(ip: string, now: real) returns (ok: bool)
      modifies this
      ensures ok == Decision(old(buckets), Request(ip, now), true)
      ensures buckets == Serve(old(buckets), Request(ip, now), true)
    {
      buckets := map b | b in buckets && Elapsed(buckets[b].at, now) < IDLE :: buckets[b];
      if ip !in buckets {
        buckets := buckets[ip := Bucket(BURST, now)];
      }
      var bucket;
      ok, bucket := BucketAllow(buckets[ip], now);
      buckets := buckets[ip := bucket];
    }
  }

  method BucketAllow(bucket: Bucket, now: real) returns (ok: bool, next: Bucket)
    ensures ok == Allows(bucket, now) && next == Called(bucket, now)
  {
    var elapsed := Elapsed(bucket.at, now);
    var tokens := Min(bucket.tokens + elapsed * (PER_MINUTE / 60.0), BURST);
    if tokens >= 1.0 {
      tokens := tokens - 1.0;
      ok := true;
    } else {
      ok := false;
    }
    next := Bucket(tokens, now);
  }
}
