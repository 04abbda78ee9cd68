/** The replay guard of agent reconnects: the garbage-collected nonce cache
    (server/internal/agents/nonce.go) and the timestamp window (server/internal/agents/crypto.go).

    Times and durations are nanoseconds; `Sub` saturates and negation wraps as Go's time.Duration do. */
module ReplayGuard {
  import opened Options

  const MAX_DURATION: int := 0x7FFF_FFFF_FFFF_FFFF
  const MIN_DURATION: int := -0x8000_0000_0000_0000

  /** A time.Duration: 64 bits, signed. */
  type Duration = d: int | MIN_DURATION <= d <= MAX_DURATION

  /** time.Time.Sub: the difference, or the nearest Duration. */
  function Sub(t: int, u: int): Duration {
    if t - u > MAX_DURATION then MAX_DURATION
    else if t - u < MIN_DURATION then MIN_DURATION
    else t - u
  }

  /** -d in 64 bits: the least Duration is its own negation. */
  function Negate(d: Duration): Duration {
    if d == MIN_DURATION then MIN_DURATION else -d
  }

  const GC_EVERY: nat := 256
  const MAX_ENTRIES: nat := 100_000

  type Log = map<string, int>

  function Key(agent: string, nonce: string): string {
    agent + "\0" + nonce
  }

  /** The entries a collection at `now` keeps. */
  function Live(seen: Log, now: int, retain: Duration): Log {
    map key | key in seen && Sub(now, seen[key]) <= retain :: seen[key]
  }

  /** The specification: a log that never forgets. A request is a replay when its key was last accepted
      within the retention window. */
  predicate Replayed(log: Log, key: string, now: int, retain: Duration) {
    key in log && Sub(now, log[key]) <= retain
  }

  predicate CollectsFirst(seen: Log, inserts: nat) {
    inserts % GC_EVERY == 0 || |seen| >= MAX_ENTRIES
  }

  class NonceCache {
    var seen: Log
    var inserts: nat
    ghost var live: nat      // entries left by the last collection
    ghost var collected: nat // inserts at the last collection

    ghost predicate Valid()
      reads this
    {
      && collected <= inserts
      && |seen| <= live + (inserts - collected)
      && (inserts > 0 ==> collected >= (inserts - 1) / GC_EVERY * GC_EVERY)
    }

    constructor ()
      ensures Valid() && seen == map[] && inserts == 0 && live == 0
    {
      seen, inserts, live, collected := map[], 0, 0, 0;
    }

    /** Whether the next call collects first. */
    predicate Collects()
      reads this
    {
      CollectsFirst(seen, inserts)
    }

    method MaybeGC(now: int, retain: Duration)
      requires Valid()
      modifies this
      ensures Valid() && inserts == old(inserts)
      ensures seen == if old(Collects()) then Live(old(seen), now, retain) else old(seen)
      ensures old(inserts % 256 == 0 || |seen| >= 100_000) ==>
                && (forall key :: key in seen <==> key in old(seen) && Sub(now, old(seen)[key]) <= retain)
                && (forall key | key in seen :: seen[key] == old(seen)[key])
      ensures !old(inserts % 256 == 0 || |seen| >= 100_000) ==> seen == old(seen)
      ensures inserts % GC_EVERY == 0 ==> collected == inserts
      ensures live == if old(Collects()) then |seen| else old(live)
    {
      if inserts % GC_EVERY != 0 && |seen| < MAX_ENTRIES {
        return;
      }
      var before := seen;
      var left := seen.Keys;
      while left != {}
        invariant left <= before.Keys
        invariant seen == map key | key in before && (key in left || Sub(now, before[key]) <= retain) :: before[key]
        invariant inserts == old(inserts)
        decreases |left|
      {
        var key :| key in left;
        if Sub(now, seen[key]) > retain {
          seen := seen - {key};
        }
        left := left - {key};
      }
      live, collected := |seen|, inserts;
    }

    /** Records the pair; `accepted` is false for ErrReplayedNonce. */
    method CheckAndStore(agent: string, nonce: string, now: int, retain: Duration) returns (accepted: bool)
      requires Valid()
      modifies this
      ensures Valid()
      ensures Decide(old(seen), old(inserts), Key(agent, nonce), now, retain) == (seen, inserts, accepted)
      ensures live == if old(Collects()) then |Live(old(seen), now, retain)| else old(live)
      ensures |seen| <= live + 256
      ensures old(inserts % 256 == 0 || |seen| >= 100_000) ==>
                forall key | key in seen && key != Key(agent, nonce) ::
                  key in old(seen) && seen[key] == old(seen)[key] && Sub(now, old(seen)[key]) <= retain
    {
      var key := Key(agent, nonce);
      MaybeGC(now, retain);
      if key in seen && Sub(now, seen[key]) <= retain {
        LiveBound(inserts, collected);
        return false;
      }
      seen := seen[key := now];
      inserts := inserts + 1;
      LiveBound(inserts, collected);
      return true;
    }
  }

  lemma LiveBound(inserts: nat, collected: nat)
    requires inserts > 0 ==> collected >= (inserts - 1) / GC_EVERY * GC_EVERY
    ensures inserts - collected <= GC_EVERY
  {
  }

  /** CheckAndStore as a function of the cache: the cache after, and whether the pair was accepted. */
  function Decide(seen: Log, inserts: nat, key: string, now: int, retain: Duration): (Log, nat, bool) {
    var kept := if CollectsFirst(seen, inserts) then Live(seen, now, retain) else seen;
    if Replayed(kept, key, now, retain) then (kept, inserts, false)
    else (kept[key := now], inserts + 1, true)
  }

  // ---- The cache decides like the log ------------------------------------------------------------

  datatype Request = Request(agent: string, nonce: string, now: int)

  /** The verdicts of the cache, and of the log, over a run of requests. */
  function CacheRun(seen: Log, inserts: nat, requests: seq<Request>, retain: Duration): (verdicts: seq<bool>)
    ensures |verdicts| == |requests|
    decreases |requests|
  {
    if requests == [] then []
    else
      var r := requests[0];
      var (seen', inserts', accepted) := Decide(seen, inserts, Key(r.agent, r.nonce), r.now, retain);
      [accepted] + CacheRun(seen', inserts', requests[1..], retain)
  }

  function LogRun(log: Log, requests: seq<Request>, retain: Duration): (verdicts: seq<bool>)
    ensures |verdicts| == |requests|
    decreases |requests|
  {
    if requests == [] then []
    else
      var r := requests[0];
      var key := Key(r.agent, r.nonce);
      if Replayed(log, key, r.now, retain) then [false] + LogRun(log, requests[1..], retain)
      else [true] + LogRun(log[key := r.now], requests[1..], retain)
  }

  ghost predicate ClockAdvances(requests: seq<Request>) {
    forall i, j | 0 <= i < j < |requests| :: requests[i].now <= requests[j].now
  }

  /** The cache holds what the log holds, but for entries that had expired by `now`. */
  ghost predicate Abstracts(seen: Log, log: Log, now: int, retain: Duration) {
    && (forall key | key in seen :: key in log && seen[key] == log[key])
    && (forall key | key in log && key !in seen :: Sub(now, log[key]) > retain)
  }

  lemma DecideAbstracts(seen: Log, inserts: nat, log: Log, key: string, before: int, now: int, retain: Duration)
    requires Abstracts(seen, log, before, retain) && before <= now
    ensures var (seen', _, accepted) := Decide(seen, inserts, key, now, retain);
            && accepted == !Replayed(log, key, now, retain)
            && Abstracts(seen', if accepted then log[key := now] else log, now, retain)
  {
  }

  lemma {:induction false} CacheRefinesLog(
    seen: Log, inserts: nat, log: Log, before: int, requests: seq<Request>, retain: Duration)
    requires Abstracts(seen, log, before, retain)
    requires ClockAdvances(requests) && (requests != [] ==> before <= requests[0].now)
    ensures CacheRun(seen, inserts, requests, retain) == LogRun(log, requests, retain)
    decreases |requests|
  {
    if requests != [] {
      var r := requests[0];
      var key := Key(r.agent, r.nonce);
      DecideAbstracts(seen, inserts, log, key, before, r.now, retain);
      var (seen', inserts', accepted) := Decide(seen, inserts, key, r.now, retain);
      CacheRefinesLog(seen', inserts', if accepted then log[key := r.now] else log, r.now, requests[1..], retain);
    }
  }

  /** With a clock that does not go back, collecting never changes a verdict: a fresh cache answers every
      run of requests like the log that never forgets. */
  lemma CollectingIsInvisible(requests: seq<Request>, retain: Duration)
    requires ClockAdvances(requests)
    ensures CacheRun(map[], 0, requests, retain) == LogRun(map[], requests, retain)
  {
    if requests != [] {
      CacheRefinesLog(map[], 0, map[], requests[0].now, requests, retain);
    }
  }

  // ---- The cache stays small ------------------------------------------------------------------------

  datatype Cache = Cache(seen: Log, inserts: nat)

  /** A fresh cache after the first n requests. */
  function CacheAfter(requests: seq<Request>, retain: Duration, n: nat): Cache
    requires n <= |requests|
  {
    if n == 0 then Cache(map[], 0)
    else
      var c, r := CacheAfter(requests, retain, n - 1), requests[n - 1];
      var (seen, inserts, _) := Decide(c.seen, c.inserts, Key(r.agent, r.nonce), r.now, retain);
      Cache(seen, inserts)
  }

  /** Request i of the run makes the cache collect. */
  ghost predicate CollectsAt(requests: seq<Request>, retain: Duration, i: nat)
    requires i < |requests|
  {
    var c := CacheAfter(requests, retain, i);
    c.inserts % 256 == 0 || |c.seen| >= 100_000
  }

  /** Request c is the last of the first n that makes the cache collect. */
  ghost predicate LastCollection(requests: seq<Request>, retain: Duration, n: nat, c: nat)
    requires n <= |requests|
  {
    && c < n && CollectsAt(requests, retain, c)
    && forall i: nat | c < i < n :: !CollectsAt(requests, retain, i)
  }

  /** What that collection kept. */
  function KeptAt(requests: seq<Request>, retain: Duration, c: nat): Log
    requires c < |requests|
  {
    Live(CacheAfter(requests, retain, c).seen, requests[c].now, retain)
  }

  /** Request i of the run is accepted. */
  predicate AcceptedAt(requests: seq<Request>, retain: Duration, i: nat)
    requires i < |requests|
  {
    var c, r := CacheAfter(requests, retain, i), requests[i];
    Decide(c.seen, c.inserts, Key(r.agent, r.nonce), r.now, retain).2
  }

  /** The verdicts of the run from request n on. */
  function VerdictsFrom(requests: seq<Request>, retain: Duration, n: nat): (verdicts: seq<bool>)
    requires n <= |requests|
    ensures |verdicts| == |requests| - n
  {
    var c := CacheAfter(requests, retain, n);
    CacheRun(c.seen, c.inserts, requests[n..], retain)
  }

  lemma VerdictsNext(requests: seq<Request>, retain: Duration, n: nat)
    requires n < |requests|
    ensures VerdictsFrom(requests, retain, n)
            == [AcceptedAt(requests, retain, n)] + VerdictsFrom(requests, retain, n + 1)
  {
    assert requests[n..][0] == requests[n] && requests[n..][1..] == requests[n + 1..];
  }

  /** AcceptedAt is the verdict the run gives the request. */
  lemma {:induction false} VerdictIs(requests: seq<Request>, retain: Duration, n: nat, i: nat)
    requires n <= i < |requests|
    ensures VerdictsFrom(requests, retain, n)[i - n] == AcceptedAt(requests, retain, i)
    decreases i - n
  {
    VerdictsNext(requests, retain, n);
    if i > n {
      VerdictIs(requests, retain, n + 1, i);
    }
  }

  /** The pairs accepted before request c that request c still finds within the retention. */
  function Unexpired(requests: seq<Request>, retain: Duration, c: nat): (keys: set<string>)
    requires c < |requests|
  {
    set i | 0 <= i < c && AcceptedAt(requests, retain, i) && Sub(requests[c].now, requests[i].now) <= retain
      :: Key(requests[i].agent, requests[i].nonce)
  }

  /** The cache stays small: after any number of requests, whatever their times, it holds at most 256 entries
      more than there are pairs accepted within the retention before the last request that made it collect. */
  lemma CacheStaysSmall(requests: seq<Request>, retain: Duration, n: nat)
    requires 0 < n <= |requests|
    ensures exists c :: LastCollection(requests, retain, n, c)
                        && |CacheAfter(requests, retain, n).seen| <= |Unexpired(requests, retain, c)| + 256
  {
    var c := InsertsSinceCollection(requests, retain, n);
    KeptWasAccepted(requests, retain, c);
    Fewer(KeptAt(requests, retain, c), Unexpired(requests, retain, c));
  }

  lemma Fewer(log: Log, keys: set<string>)
    requires log.Keys <= keys
    ensures |log| <= |keys|
  {
    FewerKeys(log.Keys, keys);
    assert |log| == |log.Keys|;
  }

  lemma {:induction false} FewerKeys(some: set<string>, all: set<string>)
    requires some <= all
    ensures |some| <= |all|
    decreases |some|
  {
    if some != {} {
      var key :| key in some;
      FewerKeys(some - {key}, all - {key});
    }
  }

  /** Request i of the first n was accepted and stored this entry. */
  ghost predicate StoredBy(requests: seq<Request>, retain: Duration, n: nat, key: string, at: int, i: nat)
    requires n <= |requests|
  {
    && i < n && AcceptedAt(requests, retain, i)
    && Key(requests[i].agent, requests[i].nonce) == key && requests[i].now == at
  }

  /** Every entry of the cache was stored by an accepted request. */
  lemma {:induction false} EntryWasStored(requests: seq<Request>, retain: Duration, n: nat, key: string)
    requires n <= |requests| && key in CacheAfter(requests, retain, n).seen
    ensures exists i :: StoredBy(requests, retain, n, key, CacheAfter(requests, retain, n).seen[key], i)
  {
    var before, after := CacheAfter(requests, retain, n - 1), CacheAfter(requests, retain, n);
    var at := after.seen[key];
    if AcceptedAt(requests, retain, n - 1) && Key(requests[n - 1].agent, requests[n - 1].nonce) == key {
      assert StoredBy(requests, retain, n, key, at, n - 1);
    } else {
      assert key in before.seen && before.seen[key] == at;
      EntryWasStored(requests, retain, n - 1, key);
      var i :| StoredBy(requests, retain, n - 1, key, at, i);
      assert StoredBy(requests, retain, n, key, at, i);
    }
  }

  lemma KeptWasAccepted(requests: seq<Request>, retain: Duration, c: nat)
    requires c < |requests|
    ensures KeptAt(requests, retain, c).Keys <= Unexpired(requests, retain, c)
  {
    var seen := CacheAfter(requests, retain, c).seen;
    forall key | key in KeptAt(requests, retain, c) ensures key in Unexpired(requests, retain, c) {
      EntryWasStored(requests, retain, c, key);
      var i :| StoredBy(requests, retain, c, key, seen[key], i);
    }
  }

  /** One call adds an entry at most, and counts it. */
  lemma DecideAddsOne(seen: Log, inserts: nat, key: string, now: int, retain: Duration)
    ensures var (seen', inserts', _) := Decide(seen, inserts, key, now, retain);
            var kept := if CollectsFirst(seen, inserts) then Live(seen, now, retain) else seen;
            inserts <= inserts' <= inserts + 1 && |seen'| <= |kept| + (inserts' - inserts)
  {
  }

  /** The next insert count past n at which the cache collects. */
  function NextCollection(n: nat): (r: nat)
    ensures n < r <= n + GC_EVERY && r % GC_EVERY == 0
  {
    n + GC_EVERY - n % GC_EVERY
  }

  /** From a collection at `from` inserts, which kept `kept` entries, to a cache of `size` entries. */
  predicate Grown(from: nat, kept: nat, to: nat, size: nat) {
    from <= to <= NextCollection(from) && size <= kept + (to - from)
  }

  /** The same for the collection at request c and the cache after n requests. */
  ghost predicate GrownFrom(requests: seq<Request>, retain: Duration, c: nat, n: nat)
    requires c < n <= |requests|
  {
    var start, end := CacheAfter(requests, retain, c), CacheAfter(requests, retain, n);
    Grown(start.inserts, |KeptAt(requests, retain, c)|, end.inserts, |end.seen|)
  }

  lemma {:induction false} InsertsSinceCollection(requests: seq<Request>, retain: Duration, n: nat) returns (c: nat)
    requires 0 < n <= |requests|
    ensures LastCollection(requests, retain, n, c) && GrownFrom(requests, retain, c, n)
  {
    OneMore(requests, retain, n);
    if CollectsAt(requests, retain, n - 1) {
      c := n - 1;
    } else {
      c := InsertsSinceCollection(requests, retain, n - 1);
      GrowsOn(requests, retain, c, n);
    }
  }

  lemma GrowsOn(requests: seq<Request>, retain: Duration, c: nat, n: nat)
    requires c < n - 1 < |requests| && LastCollection(requests, retain, n - 1, c)
    requires !CollectsAt(requests, retain, n - 1) && GrownFrom(requests, retain, c, n - 1)
    ensures LastCollection(requests, retain, n, c) && GrownFrom(requests, retain, c, n)
  {
    OneMore(requests, retain, n);
    var start := CacheAfter(requests, retain, c);
    var last, end := CacheAfter(requests, retain, n - 1), CacheAfter(requests, retain, n);
    GrownByOne(start.inserts, |KeptAt(requests, retain, c)|, last.inserts, |last.seen|, end.inserts, |end.seen|);
  }

  /** What request n - 1 does to the size of the cache. */
  lemma OneMore(requests: seq<Request>, retain: Duration, n: nat)
    requires 0 < n <= |requests|
    ensures var last, end := CacheAfter(requests, retain, n - 1), CacheAfter(requests, retain, n);
            if CollectsAt(requests, retain, n - 1) then
              Grown(last.inserts, |KeptAt(requests, retain, n - 1)|, end.inserts, |end.seen|)
            else
              && last.inserts % GC_EVERY != 0 && last.inserts <= end.inserts <= last.inserts + 1
              && |end.seen| <= |last.seen| + (end.inserts - last.inserts)
    ensures n == 1 ==> CollectsAt(requests, retain, 0)
  {
    var last, r := CacheAfter(requests, retain, n - 1), requests[n - 1];
    DecideAddsOne(last.seen, last.inserts, Key(r.agent, r.nonce), r.now, retain);
  }

  lemma GrownByOne(from: nat, kept: nat, last: nat, size: nat, to: nat, size': nat)
    requires Grown(from, kept, last, size) && last % GC_EVERY != 0
    requires last <= to <= last + 1 && size' <= size + (to - last)
    ensures Grown(from, kept, to, size')
  {
  }

  /** Two pairs share a key only if they are the same pair, when agent UIDs hold no NUL. */
  lemma KeyIsInjective(agent: string, nonce: string, agent': string, nonce': string)
    requires '\0' !in agent && '\0' !in agent'
    ensures Key(agent, nonce) == Key(agent', nonce') <==> agent == agent' && nonce == nonce'
  {
    if Key(agent, nonce) == Key(agent', nonce') {
      var key := Key(agent, nonce);
      assert key[|agent|] == '\0' && key[|agent'|] == '\0';
      assert forall i | 0 <= i < |agent| :: key[i] == agent[i] && agent[i] in agent;
      assert forall i | 0 <= i < |agent'| :: key[i] == agent'[i] && agent'[i] in agent';
      assert key[..|agent|] == agent && key[..|agent'|] == agent';
      assert key[|agent| + 1..] == nonce && key[|agent'| + 1..] == nonce';
    }
  }

  // ---- The timestamp window -----------------------------------------------------------------------

  datatype Verdict = InWindow | InvalidTimestamp | ClockSkew

  /** ValidateTimestamp, `parsed` being what parsing the text as RFC 3339 (section 5.6) gave. */
  function ValidateTimestamp(parsed: Option<int>, now: int, skew: Duration): Verdict {
    match parsed
    case None => InvalidTimestamp
    case Some(ts) =>
      var delta := Sub(now, ts);
      var off := if delta < 0 then Negate(delta) else delta;
      if off > skew then ClockSkew else InWindow
  }

  /** The window the function promises. */
  predicate WithinSkew(ts: int, now: int, skew: Duration) {
    now - ts <= skew && ts - now <= skew
  }

  /** Text that is no timestamp is refused as such, anything else only for its distance from the clock. */
  lemma RefusedExactly(parsed: Option<int>, now: int, skew: Duration)
    ensures ValidateTimestamp(parsed, now, skew) == InvalidTimestamp <==> parsed == None
    ensures ValidateTimestamp(parsed, now, skew) == ClockSkew
            <==> parsed.Some? && !WithinSkew(parsed.value, now, skew) && parsed.value - now < 0x8000_0000_0000_0000
                 && !(skew == 0x7FFF_FFFF_FFFF_FFFF && parsed.value <= now)
  {
    if parsed.Some? {
      AcceptedExactly(parsed.value, now, skew);
    }
  }

  /** What the function accepts, exactly: the window, and past it every timestamp 2^63 ns or more ahead of
      the clock, whose saturated difference negates to itself; a skew of the greatest Duration, which no
      difference exceeds, also lets in everything behind the clock. */
  lemma AcceptedExactly(ts: int, now: int, skew: Duration)
    ensures ValidateTimestamp(Some(ts), now, skew) == InWindow
            <==> WithinSkew(ts, now, skew) || ts - now >= -MIN_DURATION
                 || (skew == MAX_DURATION && ts <= now)
  {
  }

  /** The verdict is the promised one for every timestamp up to `latest`. */
  ghost predicate KeepsWindow(now: int, skew: Duration, latest: int) {
    forall ts | ts <= latest :: ValidateTimestamp(Some(ts), now, skew) == InWindow <==> WithinSkew(ts, now, skew)
  }

  /** The window holds for every timestamp if and only if none can be 2^63 ns ahead of the clock, as a date
      some 292 years ahead is, and the skew is not the greatest Duration. */
  lemma WindowHolds(now: int, skew: Duration, latest: int)
    ensures KeepsWindow(now, skew, latest) <==> latest - now < 0x8000_0000_0000_0000 && skew < MAX_DURATION
  {
    if latest - now >= -MIN_DURATION {
      WindowFailsAt(latest, now, skew, latest);
    } else if skew == MAX_DURATION {
      var early := now - MAX_DURATION - 1;
      WindowFailsAt(if early <= latest then early else latest, now, skew, latest);
    } else {
      forall ts | ts <= latest
        ensures ValidateTimestamp(Some(ts), now, skew) == InWindow <==> WithinSkew(ts, now, skew)
      {
        AcceptedExactly(ts, now, skew);
      }
    }
  }

  lemma WindowFailsAt(ts: int, now: int, skew: Duration, latest: int)
    requires ts <= latest && !WithinSkew(ts, now, skew)
    requires ts - now >= -MIN_DURATION || (skew == MAX_DURATION && ts <= now)
    ensures !KeepsWindow(now, skew, latest)
  {
    AcceptedExactly(ts, now, skew);
    assert ValidateTimestamp(Some(ts), now, skew) == InWindow;
  }

  // ---- At most once --------------------------------------------------------------------------------

  /** A signed request: the server checks its timestamp, then its nonce. */
  datatype Signed = Signed(agent: string, nonce: string, parsed: Option<int>, now: int)

  /** Which requests of a run are accepted. */
  function ServerRun(
    seen: Log, inserts: nat, requests: seq<Signed>, skew: Duration, retain: Duration): (accepted: seq<bool>)
    ensures |accepted| == |requests|
    decreases |requests|
  {
    if requests == [] then []
    else
      var r := requests[0];
      if ValidateTimestamp(r.parsed, r.now, skew) != InWindow then
        [false] + ServerRun(seen, inserts, requests[1..], skew, retain)
      else
        var (seen', inserts', accepted) := Decide(seen, inserts, Key(r.agent, r.nonce), r.now, retain);
        [accepted] + ServerRun(seen', inserts', requests[1..], skew, retain)
  }

  ghost predicate TimesAdvance(requests: seq<Signed>) {
    forall i, j | 0 <= i < j < |requests| :: requests[i].now <= requests[j].now
  }

  ghost predicate NoFarFuture(requests: seq<Signed>) {
    forall i | 0 <= i < |requests| && requests[i].parsed.Some? ::
      requests[i].parsed.value - requests[i].now < -MIN_DURATION
  }

  /** Where the cache stands, in terms of the log that never forgets, before a run of requests. */
  ghost predicate Stands(seen: Log, log: Log, before: int, requests: seq<Signed>, retain: Duration) {
    && Abstracts(seen, log, before, retain) && TimesAdvance(requests)
    && (requests != [] ==> before <= requests[0].now)
    && forall key | key in log :: log[key] <= before
  }

  /** The cache after a request, which it only sees when the timestamp is in the window. */
  function AfterRequest(seen: Log, inserts: nat, r: Signed, skew: Duration, retain: Duration): (Log, nat) {
    if ValidateTimestamp(r.parsed, r.now, skew) != InWindow then (seen, inserts)
    else
      var (seen', inserts', _) := Decide(seen, inserts, Key(r.agent, r.nonce), r.now, retain);
      (seen', inserts')
  }

  /** The first request has no other effect on the verdicts of the rest. */
  lemma RunTail(seen: Log, inserts: nat, requests: seq<Signed>, skew: Duration, retain: Duration, k: nat)
    requires 0 < k < |requests|
    ensures var (seen', inserts') := AfterRequest(seen, inserts, requests[0], skew, retain);
            ServerRun(seen, inserts, requests, skew, retain)[k]
            == ServerRun(seen', inserts', requests[1..], skew, retain)[k - 1]
  {
  }

  /** The first request is stored: its timestamp is in the window, and it is no replay. */
  predicate Stores(log: Log, r: Signed, skew: Duration, retain: Duration) {
    ValidateTimestamp(r.parsed, r.now, skew) == InWindow && !Replayed(log, Key(r.agent, r.nonce), r.now, retain)
  }

  lemma StandsNext(
    seen: Log, inserts: nat, log: Log, before: int, requests: seq<Signed>, skew: Duration, retain: Duration)
    returns (log': Log)
    requires Stands(seen, log, before, requests, retain) && requests != []
    ensures var r := requests[0];
            && log' == (if Stores(log, r, skew, retain) then log[Key(r.agent, r.nonce) := r.now] else log)
            && Stands(AfterRequest(seen, inserts, r, skew, retain).0, log', r.now, requests[1..], retain)
            && ServerRun(seen, inserts, requests, skew, retain)[0] == Stores(log, r, skew, retain)
  {
    var r := requests[0];
    var key := Key(r.agent, r.nonce);
    DecideAbstracts(seen, inserts, log, key, before, r.now, retain);
    log' := if Stores(log, r, skew, retain) then log[key := r.now] else log;
    assert forall i | 0 <= i < |requests[1..]| :: requests[1..][i] == requests[i + 1];
  }

  lemma {:induction false} SpentKeyRefused(
    seen: Log, inserts: nat, log: Log, before: int, requests: seq<Signed>, skew: Duration, retain: Duration,
    key: string, first: int, i: nat)
    requires Stands(seen, log, before, requests, retain) && i < |requests|
    requires key in log && first <= log[key]
    requires key == Key(requests[i].agent, requests[i].nonce) && Sub(requests[i].now, first) <= retain
    ensures !ServerRun(seen, inserts, requests, skew, retain)[i]
    decreases |requests|
  {
    var log' := StandsNext(seen, inserts, log, before, requests, skew, retain);
    if i > 0 {
      var (seen', inserts') := AfterRequest(seen, inserts, requests[0], skew, retain);
      RunTail(seen, inserts, requests, skew, retain, i);
      SpentKeyRefused(seen', inserts', log', requests[0].now, requests[1..], skew, retain, key, first, i - 1);
    }
  }

  /** The retention covers every moment the window is open: twice the skew, or for ever. */
  predicate Covers(skew: Duration, retain: Duration) {
    skew < 0 || 2 * skew <= retain || retain == MAX_DURATION
  }

  predicate SamePair(r: Signed, q: Signed) {
    r.agent == q.agent && r.nonce == q.nonce && r.parsed == q.parsed
  }

  /** Once the first request is accepted, a later one that repeats it is not. */
  lemma RepeatRefused(
    seen: Log, inserts: nat, log: Log, before: int, requests: seq<Signed>, skew: Duration, retain: Duration, j: nat)
    requires Covers(skew, retain) && Stands(seen, log, before, requests, retain) && NoFarFuture(requests)
    requires 0 < j < |requests| && SamePair(requests[0], requests[j])
    ensures var accepted := ServerRun(seen, inserts, requests, skew, retain); !(accepted[0] && accepted[j])
  {
    var r, q := requests[0], requests[j];
    var log' := StandsNext(seen, inserts, log, before, requests, skew, retain);
    if ValidateTimestamp(q.parsed, q.now, skew) != InWindow {
      SkewedRefused(seen, inserts, requests, skew, retain, j);
    } else if Stores(log, r, skew, retain) {
      var (seen', inserts') := AfterRequest(seen, inserts, r, skew, retain);
      WindowsMeet(r, q, skew, retain);
      RunTail(seen, inserts, requests, skew, retain, j);
      SpentKeyRefused(
        seen', inserts', log', r.now, requests[1..], skew, retain, Key(r.agent, r.nonce), r.now, j - 1);
    }
  }

  /** Two requests with one timestamp, both in its window, are no further apart than the retention. */
  lemma WindowsMeet(r: Signed, q: Signed, skew: Duration, retain: Duration)
    requires Covers(skew, retain) && NoFarFuture([r, q]) && r.parsed == q.parsed && r.now <= q.now
    requires ValidateTimestamp(r.parsed, r.now, skew) == InWindow
    requires ValidateTimestamp(q.parsed, q.now, skew) == InWindow
    ensures Sub(q.now, r.now) <= retain
  {
    assert [r, q][0] == r && [r, q][1] == q;
    AcceptedExactly(r.parsed.value, r.now, skew);
    AcceptedExactly(q.parsed.value, q.now, skew);
  }

  lemma {:induction false} AcceptedOnce(
    seen: Log, inserts: nat, log: Log, before: int, requests: seq<Signed>, skew: Duration, retain: Duration,
    i: nat, j: nat)
    requires Covers(skew, retain) && Stands(seen, log, before, requests, retain) && NoFarFuture(requests)
    requires i < j < |requests| && SamePair(requests[i], requests[j])
    ensures var accepted := ServerRun(seen, inserts, requests, skew, retain); !(accepted[i] && accepted[j])
    decreases |requests|
  {
    if i == 0 {
      RepeatRefused(seen, inserts, log, before, requests, skew, retain, j);
    } else {
      var log' := StandsNext(seen, inserts, log, before, requests, skew, retain);
      var (seen', inserts') := AfterRequest(seen, inserts, requests[0], skew, retain);
      RunTail(seen, inserts, requests, skew, retain, i);
      RunTail(seen, inserts, requests, skew, retain, j);
      AcceptedOnce(seen', inserts', log', requests[0].now, requests[1..], skew, retain, i - 1, j - 1);
    }
  }

  lemma {:induction false} SkewedRefused(
    seen: Log, inserts: nat, requests: seq<Signed>, skew: Duration, retain: Duration, j: nat)
    requires j < |requests| && ValidateTimestamp(requests[j].parsed, requests[j].now, skew) != InWindow
    ensures !ServerRun(seen, inserts, requests, skew, retain)[j]
    decreases |requests|
  {
    if j > 0 {
      var (seen', inserts') := AfterRequest(seen, inserts, requests[0], skew, retain);
      RunTail(seen, inserts, requests, skew, retain, j);
      SkewedRefused(seen', inserts', requests[1..], skew, retain, j - 1);
    }
  }

  /** In no run on a fresh cache are the same agent, nonce and timestamp accepted twice. */
  ghost predicate NeverTwice(skew: Duration, retain: Duration) {
    forall requests | TimesAdvance(requests) && NoFarFuture(requests) :: NoRepeat(requests, skew, retain)
  }

  ghost predicate NoRepeat(requests: seq<Signed>, skew: Duration, retain: Duration) {
    var accepted := ServerRun(map[], 0, requests, skew, retain);
    forall i, j | 0 <= i < j < |requests| && SamePair(requests[i], requests[j]) :: !(accepted[i] && accepted[j])
  }

  /** At most once, exactly: with a clock that does not go back, the same agent, nonce and timestamp are
      never accepted twice if and only if the retention is at least twice the skew (or endless, or the skew
      lets nothing in). */
  lemma AtMostOnce(skew: Duration, retain: Duration)
    ensures NeverTwice(skew, retain) <==> Covers(skew, retain)
  {
    if Covers(skew, retain) {
      forall requests | TimesAdvance(requests) && NoFarFuture(requests) ensures NoRepeat(requests, skew, retain) {
        OnceInRun(requests, skew, retain);
      }
    } else {
      var requests := ShortRetentionReplays(skew, retain);
      assert !NoRepeat(requests, skew, retain);
    }
  }

  lemma OnceInRun(requests: seq<Signed>, skew: Duration, retain: Duration)
    requires Covers(skew, retain) && TimesAdvance(requests) && NoFarFuture(requests)
    ensures NoRepeat(requests, skew, retain)
  {
    var accepted := ServerRun(map[], 0, requests, skew, retain);
    forall i, j | 0 <= i < j < |requests| && SamePair(requests[i], requests[j])
      ensures !(accepted[i] && accepted[j])
    {
      AcceptedOnce(map[], 0, map[], requests[0].now, requests, skew, retain, i, j);
    }
  }

  /** A shorter retention is not enough: a request accepted early in its window is accepted again late in
      it, once the cache has let go of it. */
  lemma ShortRetentionReplays(skew: Duration, retain: Duration) returns (requests: seq<Signed>)
    requires !Covers(skew, retain)
    ensures TimesAdvance(requests) && NoFarFuture(requests) && |requests| == 2
    ensures SamePair(requests[0], requests[1])
    ensures ServerRun(map[], 0, requests, skew, retain) == [true, true]
  {
    var early := Signed("a", "n", Some(skew), 0);
    var late := early.(now := 2 * skew);
    requests := [early, late];
    AcceptedExactly(skew, 0, skew);
    AcceptedExactly(skew, 2 * skew, skew);
    var key := Key("a", "n");
    var (seen, inserts, accepted) := Decide(map[], 0, key, 0, retain);
    assert seen == map[key := 0] && inserts == 1 && accepted;
    assert requests[1..] == [late] && requests[1..][1..] == [];
    assert !Replayed(seen, key, late.now, retain);
    assert ServerRun(seen, 1, [late], skew, retain) == [true];
  }
}
