/**
 The per-address token buckets that evict idle entries. Times are exact and are
 counted in ticks of the bucket's own rate: one tick earns one unit, so a span
 of t seconds is rate × t ticks.
 */
module RateLimiter {
  import opened Basics

  const MAX_INT32 := 0x7fff_ffff
  const IDLE_TTL_FLOOR := 600.0

  /** One bucket: rate.Limiter of golang.org/x/time/rate, over exact rationals. */
  datatype Bucket = Bucket(tokens: real, last: real)

  datatype Config = Config(burst: nat, idleTTL: real) {

    /** A bucket idle for idleTTL has refilled, whatever it held. */
    predicate Refills() {
      idleTTL >= burst as real
    }

    /** A new bucket is full; its zero time lies before every request. */
    function NewBucket(): Bucket {
      Bucket(burst as real, 0.0)
    }

    /** What a bucket holds at `now`. */
    function Level(b: Bucket, now: real): real {
      var elapsed := if now < b.last then 0.0 else now - b.last;
      var tokens := b.tokens + elapsed;
      if tokens > burst as real then burst as real else tokens
    }

    /** AllowN of a single bucket: a refusal leaves it as it was. */
    function Take(b: Bucket, n: nat, now: real): (r: (Bucket, bool)) {
      var level := Level(b, now);
      if n <= burst && n as real <= level then (Bucket(level - n as real, now), true) else (b, false)
    }
  }

  datatype Entry = Entry(bucket: Bucket, lastSeen: real)

  datatype State = State(entries: map<string, Entry>, lastGC: real)

  datatype Call = Call(ip: string, n: nat, now: real)

  function Idle(c: Config, e: Entry, now: real): bool {
    now - e.lastSeen > c.idleTTL
  }

  function Sweep(c: Config, entries: map<string, Entry>, now: real): map<string, Entry> {
    map ip | ip in entries && !Idle(c, entries[ip], now) :: entries[ip]
  }

  function BucketOf(c: Config, s: State, ip: string): Bucket {
    if ip in s.entries then s.entries[ip].bucket else c.NewBucket()
  }

  /** The entries after a request has been looked up and the amortised sweep has run. */
  function Visited(c: Config, s: State, call: Call): State {
    var entries := s.entries[call.ip := Entry(BucketOf(c, s, call.ip), call.now)];
    if call.now - s.lastGC > c.idleTTL then State(Sweep(c, entries, call.now), call.now)
    else State(entries, s.lastGC)
  }

  /** What allowN does to the limiter, and its answer. */
  function Allow(c: Config, s: State, call: Call): (State, bool) {
    if call.n > c.burst then (s, false)
    else
      var (bucket, ok) := c.Take(BucketOf(c, s, call.ip), call.n, call.now);
      var v := Visited(c, s, call);
      (v.(entries := v.entries[call.ip := Entry(bucket, call.now)]), ok)
  }

  function Decisions(c: Config, s: State, calls: seq<Call>): seq<bool>
    decreases |calls|
  {
    if calls == [] then []
    else
      var (s', ok) := Allow(c, s, calls[0]);
      [ok] + Decisions(c, s', calls[1..])
  }

  // ----- the limiter that never evicts -----

  function PlainBucket(c: Config, m: map<string, Bucket>, ip: string): Bucket {
    if ip in m then m[ip] else c.NewBucket()
  }

  function PlainAllow(c: Config, m: map<string, Bucket>, call: Call): (map<string, Bucket>, bool) {
    var (bucket, ok) := c.Take(PlainBucket(c, m, call.ip), call.n, call.now);
    (m[call.ip := bucket], ok)
  }

  function PlainDecisions(c: Config, m: map<string, Bucket>, calls: seq<Call>): seq<bool>
    decreases |calls|
  {
    if calls == [] then []
    else
      var (m', ok) := PlainAllow(c, m, calls[0]);
      [ok] + PlainDecisions(c, m', calls[1..])
  }

  /** The clock does not run backwards. */
  predicate Ordered(from: real, calls: seq<Call>)
    decreases |calls|
  {
    calls == [] || (from <= calls[0].now && Ordered(calls[0].now, calls[1..]))
  }

  // ----- eviction is invisible -----

  predicate BucketOk(c: Config, b: Bucket, seen: real) {
    0.0 <= b.tokens <= c.burst as real && b.last <= seen
  }

  predicate StateOk(c: Config, s: State, now: real) {
    forall ip <- s.entries :: BucketOk(c, s.entries[ip].bucket, s.entries[ip].lastSeen) && s.entries[ip].lastSeen <= now
  }

  predicate Full(c: Config, b: Bucket, now: real) {
    c.Level(b, now) == c.burst as real
  }

  /** Kept entries agree with the plain limiter; addresses without an entry have a full bucket there. */
  predicate Agrees(c: Config, s: State, m: map<string, Bucket>, now: real) {
    && (forall ip <- s.entries :: ip in m && m[ip] == s.entries[ip].bucket)
    && (forall ip <- m :: ip in s.entries || Full(c, m[ip], now))
  }

  /** More time never lowers a level, and adds at most one unit per tick. */
  lemma LevelGrows(c: Config, b: Bucket, now: real, later: real)
    requires now <= later
    ensures c.Level(b, now) <= c.Level(b, later) <= c.Level(b, now) + (later - now)
  {
  }

  lemma LevelBounds(c: Config, b: Bucket, seen: real, now: real)
    requires BucketOk(c, b, seen)
    ensures b.tokens <= c.Level(b, now) <= c.burst as real
  {
  }

  /** An entry is idle only once its bucket is full again. */
  lemma IdleMeansFull(c: Config, e: Entry, now: real)
    requires c.Refills() && BucketOk(c, e.bucket, e.lastSeen) && Idle(c, e, now)
    ensures Full(c, e.bucket, now)
  {
  }

  /** The answer, and the bucket afterwards, depend only on the level. */
  lemma TakeFromFull(c: Config, b: Bucket, n: nat, now: real)
    requires n <= c.burst && Full(c, b, now) && now >= 0.0
    ensures c.Take(b, n, now) == c.Take(c.NewBucket(), n, now)
  {
    LevelBounds(c, c.NewBucket(), now, now);
  }

  lemma AllowKeepsOk(c: Config, s: State, call: Call, now: real)
    requires c.Refills() && StateOk(c, s, now) && 0.0 <= now <= call.now
    ensures StateOk(c, Allow(c, s, call).0, call.now)
  {
    LevelBounds(c, BucketOf(c, s, call.ip), call.now, call.now);
  }

  /** One request is answered alike, and the two limiters still agree. */
  lemma AllowAgrees(c: Config, s: State, m: map<string, Bucket>, call: Call, now: real)
    requires c.Refills() && StateOk(c, s, now) && Agrees(c, s, m, now) && 0.0 <= now <= call.now
    ensures Allow(c, s, call).1 == PlainAllow(c, m, call).1
    ensures Agrees(c, Allow(c, s, call).0, PlainAllow(c, m, call).0, call.now)
  {
    var s', m' := Allow(c, s, call).0, PlainAllow(c, m, call).0;
    if call.ip !in s.entries && call.ip in m {
      LevelGrows(c, m[call.ip], now, call.now);
      if call.n <= c.burst {
        TakeFromFull(c, m[call.ip], call.n, call.now);
      }
    }
    forall ip <- m' ensures ip in s'.entries || Full(c, m'[ip], call.now) {
      if ip in m {
        LevelGrows(c, m[ip], now, call.now);
      }
      if ip in s.entries && ip !in s'.entries {
        IdleMeansFull(c, s.entries[ip], call.now);
      }
      if ip !in s'.entries && ip !in m {
        LevelBounds(c, c.NewBucket(), call.now, call.now);
      }
    }
  }

  lemma {:induction false} AgreeingDecisions(c: Config, s: State, m: map<string, Bucket>, calls: seq<Call>, now: real)
    requires c.Refills() && StateOk(c, s, now) && Agrees(c, s, m, now) && 0.0 <= now && Ordered(now, calls)
    ensures Decisions(c, s, calls) == PlainDecisions(c, m, calls)
    decreases |calls|
  {
    if calls != [] {
      AllowAgrees(c, s, m, calls[0], now);
      AllowKeepsOk(c, s, calls[0], now);
      AgreeingDecisions(c, Allow(c, s, calls[0]).0, PlainAllow(c, m, calls[0]).0, calls[1..], calls[0].now);
    }
  }

  /** For every sequence of calls, evicting idle buckets changes no answer. */
  lemma EvictionIsInvisible(c: Config, started: real, calls: seq<Call>)
    requires c.Refills() && started >= 0.0 && Ordered(started, calls)
    ensures Decisions(c, State(map[], started), calls) == PlainDecisions(c, map[], calls)
  {
    AgreeingDecisions(c, State(map[], started), map[], calls, started);
  }

  // ----- eviction happens -----

  /** Nothing is kept that was last seen more than one retention before the last sweep. */
  predicate Swept(c: Config, s: State) {
    forall ip <- s.entries :: s.lastGC - s.entries[ip].lastSeen <= c.idleTTL
  }

  /** A sweep takes place once more than one retention has passed since the last, and takes who was not seen for longer. */
  lemma EvictedIff(c: Config, s: State, call: Call, ip: string)
    requires call.n <= c.burst && ip != call.ip && c.idleTTL >= 0.0
    ensures var s', due := Allow(c, s, call).0, call.now - s.lastGC > c.idleTTL;
      && s'.lastGC == (if due then call.now else s.lastGC)
      && (ip in s'.entries <==> ip in s.entries && !(due && call.now - s.entries[ip].lastSeen > c.idleTTL))
      && (ip in s'.entries ==> s'.entries[ip] == s.entries[ip])
  {
  }

  lemma SweptAfterCall(c: Config, s: State, call: Call, now: real)
    requires c.Refills() && StateOk(c, s, now) && Swept(c, s) && 0.0 <= now <= call.now && s.lastGC <= now
    ensures var s' := Allow(c, s, call).0;
      Swept(c, s') && s'.lastGC <= call.now && (call.n <= c.burst ==> call.now - s'.lastGC <= c.idleTTL)
  {
  }

  lemma {:induction false} SweptAfterAll(c: Config, s: State, calls: seq<Call>, now: real)
    requires c.Refills() && StateOk(c, s, now) && Swept(c, s) && 0.0 <= now && s.lastGC <= now && Ordered(now, calls)
    ensures Swept(c, After(c, s, calls)) && After(c, s, calls).lastGC <= LastTime(now, calls)
    decreases |calls|
  {
    if calls != [] {
      SweptAfterCall(c, s, calls[0], now);
      AllowKeepsOk(c, s, calls[0], now);
      SweptAfterAll(c, Allow(c, s, calls[0]).0, calls[1..], calls[0].now);
      assert LastTime(calls[0].now, calls[1..]) == LastTime(now, calls);
    }
  }

  /**
   The map does not keep who has gone: after any history and one more request of
   usual size, every address in it was seen within the last two retentions, and the
   one that asked is in it.
   */
  lemma OnlyRecentAddresses(c: Config, started: real, calls: seq<Call>, call: Call, ip: string)
    requires c.Refills() && started >= 0.0 && Ordered(started, calls + [call]) && call.n <= c.burst
    ensures var s := Allow(c, After(c, State(map[], started), calls), call).0;
      && (ip in s.entries ==> call.now - s.entries[ip].lastSeen <= 2.0 * c.idleTTL)
      && call.ip in s.entries && s.entries[call.ip].lastSeen == call.now
  {
    var init := State(map[], started);
    OrderedSplit(started, calls, [call]);
    RunKeepsOk(c, init, calls, started);
    SweptAfterAll(c, init, calls, started);
    SweptAfterCall(c, After(c, init, calls), call, LastTime(started, calls));
  }

  // ----- how much one address is granted -----

  function After(c: Config, s: State, calls: seq<Call>): State
    decreases |calls|
  {
    if calls == [] then s else After(c, Allow(c, s, calls[0]).0, calls[1..])
  }

  function LastTime(from: real, calls: seq<Call>): real {
    if calls == [] then from else calls[|calls| - 1].now
  }

  function Granted(c: Config, s: State, calls: seq<Call>, ip: string): nat
    decreases |calls|
  {
    if calls == [] then 0
    else
      var (s', ok) := Allow(c, s, calls[0]);
      (if ok && calls[0].ip == ip then calls[0].n else 0) + Granted(c, s', calls[1..], ip)
  }

  /** What an address could spend at `now`. */
  function LevelOf(c: Config, s: State, ip: string, now: real): real {
    c.Level(BucketOf(c, s, ip), now)
  }

  /** A request takes from the level exactly what it is granted; eviction and refusal take nothing. */
  lemma LevelAfterCall(c: Config, s: State, call: Call, ip: string, now: real)
    requires c.Refills() && StateOk(c, s, now) && 0.0 <= now <= call.now
    ensures var (s', ok) := Allow(c, s, call);
      LevelOf(c, s, ip, call.now) ==
      LevelOf(c, s', ip, call.now) + (if ok && call.ip == ip then call.n as real else 0.0)
  {
    var b := BucketOf(c, s, ip);
    var s' := Allow(c, s, call).0;
    if ip == call.ip {
      LevelBounds(c, b, call.now, call.now);
    } else if ip in s.entries && ip !in s'.entries {
      IdleMeansFull(c, s.entries[ip], call.now);
      LevelBounds(c, c.NewBucket(), call.now, call.now);
    }
  }

  lemma {:induction false} RunKeepsOk(c: Config, s: State, calls: seq<Call>, now: real)
    requires c.Refills() && StateOk(c, s, now) && 0.0 <= now && Ordered(now, calls)
    ensures now <= LastTime(now, calls) && StateOk(c, After(c, s, calls), LastTime(now, calls))
    decreases |calls|
  {
    if calls != [] {
      AllowKeepsOk(c, s, calls[0], now);
      RunKeepsOk(c, Allow(c, s, calls[0]).0, calls[1..], calls[0].now);
      assert LastTime(calls[0].now, calls[1..]) == LastTime(now, calls);
    }
  }

  /** One call first, the rest after it: the budgets of the two parts add up. */
  lemma SpendStep(c: Config, s: State, call: Call, ip: string, now: real, end: real, later: nat, left: real)
    requires c.Refills() && StateOk(c, s, now) && 0.0 <= now <= call.now <= end
    requires later as real + left <= LevelOf(c, Allow(c, s, call).0, ip, call.now) + (end - call.now)
    ensures var spent := if Allow(c, s, call).1 && call.ip == ip then call.n else 0;
      (spent + later) as real + left <= LevelOf(c, s, ip, now) + (end - now)
  {
    LevelAfterCall(c, s, call, ip, now);
    LevelGrows(c, BucketOf(c, s, ip), now, call.now);
  }

  lemma {:induction false} SpentPlusLevel(c: Config, s: State, calls: seq<Call>, ip: string, now: real)
    requires c.Refills() && StateOk(c, s, now) && 0.0 <= now && Ordered(now, calls)
    ensures var end := LastTime(now, calls);
      Granted(c, s, calls, ip) as real + LevelOf(c, After(c, s, calls), ip, end)
      <= LevelOf(c, s, ip, now) + (end - now)
    decreases |calls|
  {
    if calls != [] {
      var call, rest, s' := calls[0], calls[1..], Allow(c, s, calls[0]).0;
      var end := LastTime(now, calls);
      AllowKeepsOk(c, s, call, now);
      RunKeepsOk(c, s', rest, call.now);
      SpentPlusLevel(c, s', rest, ip, call.now);
      assert LastTime(call.now, rest) == end;
      SpendStep(c, s, call, ip, now, end, Granted(c, s', rest, ip), LevelOf(c, After(c, s', rest), ip, end));
    }
  }

  // ----- how much one address is owed -----

  /**
   In every ordered history, a request is granted exactly if it is within the
   burst and the address could spend that much then.
   */
  lemma GrantedIff(c: Config, started: real, calls: seq<Call>, call: Call)
    requires c.Refills() && started >= 0.0 && Ordered(started, calls + [call])
    ensures var s := After(c, State(map[], started), calls);
      Allow(c, s, call).1 <==> call.n <= c.burst && call.n as real <= LevelOf(c, s, call.ip, call.now)
  {
  }

  /** In between, an address earns one unit per tick, until its bucket is full. */
  lemma LevelRefills(c: Config, s: State, ip: string, now: real, later: real)
    requires c.Refills() && StateOk(c, s, now) && 0.0 <= now <= later
    ensures var earned := LevelOf(c, s, ip, now) + (later - now);
      LevelOf(c, s, ip, later) == if earned > c.burst as real then c.burst as real else earned
  {
  }

  /** What was granted is all that can be missing from a full bucket. */
  lemma {:induction false} OnlyGrantsAreMissing(c: Config, s: State, calls: seq<Call>, ip: string, now: real)
    requires c.Refills() && StateOk(c, s, now) && 0.0 <= now && Ordered(now, calls)
    ensures var end := LastTime(now, calls);
      LevelOf(c, After(c, s, calls), ip, end) + Granted(c, s, calls, ip) as real >= LevelOf(c, s, ip, now)
    decreases |calls|
  {
    if calls != [] {
      var call, s' := calls[0], Allow(c, s, calls[0]).0;
      AllowKeepsOk(c, s, call, now);
      OnlyGrantsAreMissing(c, s', calls[1..], ip, call.now);
      LevelAfterCall(c, s, call, ip, now);
      LevelGrows(c, BucketOf(c, s, ip), now, call.now);
      assert LastTime(call.now, calls[1..]) == LastTime(now, calls);
    }
  }

  /** Whoever has not yet been granted the burst is granted what is left of it, whatever was refused before. */
  lemma WithinTheBurst(c: Config, started: real, calls: seq<Call>, call: Call)
    requires c.Refills() && started >= 0.0 && Ordered(started, calls + [call])
    requires Granted(c, State(map[], started), calls, call.ip) + call.n <= c.burst
    ensures Allow(c, After(c, State(map[], started), calls), call).1
  {
    var init := State(map[], started);
    var s, end := After(c, init, calls), LastTime(started, calls);
    OrderedSplit(started, calls, [call]);
    RunKeepsOk(c, init, calls, started);
    OnlyGrantsAreMissing(c, init, calls, call.ip, started);
    LevelGrows(c, BucketOf(c, s, call.ip), end, call.now);
    FullAtFirst(c, call.ip, started);
    GrantedIff(c, started, calls, call);
  }

  lemma FullAtFirst(c: Config, ip: string, started: real)
    requires started >= 0.0
    ensures LevelOf(c, State(map[], started), ip, started) == c.burst as real
  {
  }

  lemma LevelOfBounds(c: Config, s: State, ip: string, now: real)
    requires c.Refills() && StateOk(c, s, now) && 0.0 <= now
    ensures 0.0 <= LevelOf(c, s, ip, now) <= c.burst as real
  {
    LevelBounds(c, BucketOf(c, s, ip), now, now);
  }

  lemma {:induction false} OrderedSplit(from: real, a: seq<Call>, b: seq<Call>)
    requires Ordered(from, a + b)
    ensures Ordered(from, a) && Ordered(LastTime(from, a), b)
    decreases |a|
  {
    if a == [] {
      assert a + b == b;
    } else {
      assert (a + b)[0] == a[0] && (a + b)[1..] == a[1..] + b;
      OrderedSplit(a[0].now, a[1..], b);
    }
  }

  /**
   In any span of any history, one address is granted at most the burst plus
   one unit per tick, across refused requests and evictions.
   */
  lemma GrantedInAnySpan(c: Config, started: real, before: seq<Call>, during: seq<Call>, ip: string)
    requires c.Refills() && started >= 0.0 && Ordered(started, before + during) && during != []
    ensures Granted(c, After(c, State(map[], started), before), during, ip) as real
         <= c.burst as real + (during[|during| - 1].now - during[0].now)
  {
    var init := State(map[], started);
    OrderedSplit(started, before, during);
    RunKeepsOk(c, init, before, started);
    var s, now, first := After(c, init, before), LastTime(started, before), during[0].now;
    assert StateOk(c, s, first);
    RunKeepsOk(c, s, during, first);
    SpentPlusLevel(c, s, during, ip, first);
    LevelOfBounds(c, s, ip, first);
    LevelOfBounds(c, After(c, s, during), ip, LastTime(first, during));
  }

  /** The same calls read off another clock. */
  function OnClock(clock: real -> real, calls: seq<Call>): (r: seq<Call>)
    ensures |r| == |calls| && forall i | 0 <= i < |r| :: r[i] == calls[i].(now := clock(calls[i].now))
  {
    seq(|calls|, i requires 0 <= i < |calls| => calls[i].(now := clock(calls[i].now)))
  }

  /** A clock that counts the ticks of a bucket earning `rate` units a second. */
  ghost predicate CountsTicks(clock: real -> real, rate: real) {
    forall from, to :: clock(to) - clock(from) == rate * (to - from)
  }

  lemma TickSpan(clock: real -> real, rate: real, from: real, to: real)
    requires CountsTicks(clock, rate)
    ensures clock(to) - clock(from) == rate * (to - from)
    ensures rate >= 0.0 && from <= to ==> clock(from) <= clock(to)
  {
  }

  lemma RateTimesSeconds(rate: real) returns (clock: real -> real)
    ensures CountsTicks(clock, rate) && clock(0.0) == 0.0
  {
    clock := t => rate * t;
  }

  lemma RateTimesWindow(n: nat, window: real)
    requires window > 0.0
    ensures n as real / window * window == n as real
  {
  }

  lemma TicksOfWindow(clock: real -> real, rate: real, window: real, ticks: real, t: real)
    requires CountsTicks(clock, rate) && rate * window == ticks
    ensures clock(t + window) - clock(t) == ticks
  {
    TickSpan(clock, rate, t, t + window);
    assert t + window - t == window;
  }

  /**
   For a limiter of `n` units a window there is such a clock, and on it every
   window is `n` ticks long, the time an empty bucket takes to fill.
   */
  lemma WindowFillsTheBucket(n: nat, window: real) returns (clock: real -> real)
    requires window > 0.0
    ensures CountsTicks(clock, n as real / window) && clock(0.0) == 0.0
    ensures forall t :: clock(t + window) - clock(t) == n as real
  {
    var rate := n as real / window;
    clock := RateTimesSeconds(rate);
    RateTimesWindow(n, window);
    forall t ensures clock(t + window) - clock(t) == n as real {
      TicksOfWindow(clock, rate, window, n as real, t);
    }
  }

  /** The calls keep their order on the tick clock. */
  lemma {:induction false} OrderedOnClock(clock: real -> real, rate: real, from: real, calls: seq<Call>)
    requires CountsTicks(clock, rate) && rate >= 0.0 && Ordered(from, calls)
    ensures Ordered(clock(from), OnClock(clock, calls))
    decreases |calls|
  {
    if calls != [] {
      TickSpan(clock, rate, from, calls[0].now);
      OrderedOnClock(clock, rate, calls[0].now, calls[1..]);
      assert OnClock(clock, calls)[1..] == OnClock(clock, calls[1..]);
    }
  }

  lemma GrantedOnClock(c: Config, clock: real -> real, started: real, before: seq<Call>, during: seq<Call>, ip: string)
    requires c.Refills() && during != [] && clock(started) >= 0.0
    requires Ordered(clock(started), OnClock(clock, before + during))
    ensures var s := After(c, State(map[], clock(started)), OnClock(clock, before));
      Granted(c, s, OnClock(clock, during), ip) as real
      <= c.burst as real + (clock(during[|during| - 1].now) - clock(during[0].now))
  {
    assert OnClock(clock, before + during) == OnClock(clock, before) + OnClock(clock, during);
    GrantedInAnySpan(c, clock(started), OnClock(clock, before), OnClock(clock, during), ip);
  }

  /**
   In seconds: in any span of any history, an address is granted at most the
   burst plus the rate times the length of the span.
   */
  lemma GrantedInSeconds(c: Config, clock: real -> real, rate: real, started: real, before: seq<Call>, during: seq<Call>, ip: string)
    requires c.Refills() && rate >= 0.0 && CountsTicks(clock, rate) && clock(started) >= 0.0
    requires Ordered(started, before + during) && during != []
    ensures var s := After(c, State(map[], clock(started)), OnClock(clock, before));
      Granted(c, s, OnClock(clock, during), ip) as real
      <= c.burst as real + rate * (during[|during| - 1].now - during[0].now)
  {
    OrderedOnClock(clock, rate, started, before + during);
    GrantedOnClock(c, clock, started, before, during, ip);
    TickSpan(clock, rate, during[0].now, during[|during| - 1].now);
  }

  // ----- the upload budget, in kilobytes -----

  datatype Upload = Upload(ip: string, bytes: nat, now: real)

  /** checkUploadBudget: nothing is charged for no bytes, and bytes round up to kilobytes. */
  function Charge(u: Upload): seq<Call> {
    if u.bytes == 0 then [] else [Call(u.ip, (u.bytes + 1023) / 1024, u.now)]
  }

  function Charges(us: seq<Upload>): seq<Call> {
    if us == [] then [] else Charge(us[0]) + Charges(us[1..])
  }

  function CheckUploadBudget(c: Config, s: State, u: Upload): (State, bool) {
    if u.bytes == 0 then (s, true) else Allow(c, s, Charge(u)[0])
  }

  function Admitted(c: Config, s: State, us: seq<Upload>, ip: string): nat
    decreases |us|
  {
    if us == [] then 0
    else
      var (s', ok) := CheckUploadBudget(c, s, us[0]);
      (if ok && us[0].ip == ip then us[0].bytes else 0) + Admitted(c, s', us[1..], ip)
  }

  /** An upload of no bytes passes; any other passes exactly if its size in whole kilobytes, rounded up, can be spent. */
  lemma AdmittedIff(c: Config, started: real, calls: seq<Call>, u: Upload, kilobytes: nat)
    requires c.Refills() && started >= 0.0 && Ordered(started, calls + [Call(u.ip, kilobytes, u.now)])
    requires 1024 * (kilobytes - 1) < u.bytes <= 1024 * kilobytes
    ensures var s := After(c, State(map[], started), calls);
      CheckUploadBudget(c, s, u).1 <==> u.bytes == 0 || (kilobytes <= c.burst && kilobytes as real <= LevelOf(c, s, u.ip, u.now))
  {
    var s := After(c, State(map[], started), calls);
    if u.bytes > 0 {
      ChargeIs(u, kilobytes);
      GrantedIff(c, started, calls, Call(u.ip, kilobytes, u.now));
      assert CheckUploadBudget(c, s, u) == Allow(c, s, Call(u.ip, kilobytes, u.now));
    }
  }

  lemma ChargeIs(u: Upload, kilobytes: nat)
    requires u.bytes > 0 && 1024 * (kilobytes - 1) < u.bytes <= 1024 * kilobytes
    ensures Charge(u) == [Call(u.ip, kilobytes, u.now)]
  {
    assert (u.bytes + 1023) / 1024 == kilobytes;
  }

  lemma {:induction false} AdmittedAtMostGranted(c: Config, s: State, us: seq<Upload>, ip: string)
    ensures Admitted(c, s, us, ip) <= 1024 * Granted(c, s, Charges(us), ip)
    decreases |us|
  {
    if us != [] {
      var s' := CheckUploadBudget(c, s, us[0]).0;
      AdmittedAtMostGranted(c, s', us[1..], ip);
      if us[0].bytes > 0 {
        assert Charges(us)[0] == Charge(us[0])[0] && Charges(us)[1..] == Charges(us[1..]);
      } else {
        assert Charges(us) == Charges(us[1..]);
      }
    }
  }

  /** The bytes admitted in any span are at most 1024 × (burst + ticks of the span). */
  lemma AdmittedInAnySpan(c: Config, started: real, before: seq<Call>, us: seq<Upload>, ip: string)
    requires c.Refills() && started >= 0.0 && Ordered(started, before + Charges(us)) && Charges(us) != []
    ensures var during := Charges(us);
      Admitted(c, After(c, State(map[], started), before), us, ip) as real
      <= 1024.0 * (c.burst as real + (during[|during| - 1].now - during[0].now))
  {
    var s, during := After(c, State(map[], started), before), Charges(us);
    GrantedInAnySpan(c, started, before, during, ip);
    AdmittedAtMostGranted(c, s, us, ip);
    KilobytesToBytes(Admitted(c, s, us, ip), Granted(c, s, during, ip),
                     c.burst as real + (during[|during| - 1].now - during[0].now));
  }

  /** The same uploads with their times read off another clock. */
  function UploadsOnClock(clock: real -> real, us: seq<Upload>): seq<Upload> {
    if us == [] then [] else [us[0].(now := clock(us[0].now))] + UploadsOnClock(clock, us[1..])
  }

  lemma {:induction false} ChargesOnClock(clock: real -> real, us: seq<Upload>)
    ensures Charges(UploadsOnClock(clock, us)) == OnClock(clock, Charges(us))
    decreases |us|
  {
    if us != [] {
      var later := UploadsOnClock(clock, us)[1..];
      ChargesOnClock(clock, us[1..]);
      assert later == UploadsOnClock(clock, us[1..]);
      assert OnClock(clock, Charge(us[0]) + Charges(us[1..]))
          == OnClock(clock, Charge(us[0])) + OnClock(clock, Charges(us[1..]));
      assert Charge(us[0].(now := clock(us[0].now))) == OnClock(clock, Charge(us[0]));
    }
  }

  lemma AdmittedOnClock(c: Config, clock: real -> real, started: real, before: seq<Call>, us: seq<Upload>, ip: string, ticks: real)
    requires c.Refills() && clock(started) >= 0.0 && Charges(us) != []
    requires Ordered(clock(started), OnClock(clock, before + Charges(us)))
    requires clock(Charges(us)[|Charges(us)| - 1].now) - clock(Charges(us)[0].now) == ticks
    ensures var s := After(c, State(map[], clock(started)), OnClock(clock, before));
      Admitted(c, s, UploadsOnClock(clock, us), ip) as real <= 1024.0 * (c.burst as real + ticks)
  {
    var s := After(c, State(map[], clock(started)), OnClock(clock, before));
    GrantedOnClock(c, clock, started, before, Charges(us), ip);
    AdmittedWithin(c, s, clock, us, ip, c.burst as real + ticks);
  }

  lemma TicksEarned(clock: real -> real, rate: real, from: real, to: real, earned: real)
    requires CountsTicks(clock, rate) && earned == rate * (to - from)
    ensures clock(to) - clock(from) == earned
  {
    TickSpan(clock, rate, from, to);
  }

  /** In seconds: the bytes admitted in any span are at most 1024 × (burst + earned), with rate × span earned. */
  lemma AdmittedInSeconds(c: Config, clock: real -> real, rate: real, started: real, before: seq<Call>, us: seq<Upload>, ip: string,
                          earned: real)
    requires c.Refills() && rate >= 0.0 && CountsTicks(clock, rate) && clock(started) >= 0.0
    requires Ordered(started, before + Charges(us)) && Charges(us) != []
    requires earned == rate * (Charges(us)[|Charges(us)| - 1].now - Charges(us)[0].now)
    ensures var s := After(c, State(map[], clock(started)), OnClock(clock, before));
      Admitted(c, s, UploadsOnClock(clock, us), ip) as real <= 1024.0 * (c.burst as real + earned)
  {
    OrderedOnClock(clock, rate, started, before + Charges(us));
    TicksEarned(clock, rate, Charges(us)[0].now, Charges(us)[|Charges(us)| - 1].now, earned);
    AdmittedOnClock(c, clock, started, before, us, ip, earned);
  }

  lemma AdmittedWithin(c: Config, s: State, clock: real -> real, us: seq<Upload>, ip: string, bound: real)
    requires Granted(c, s, OnClock(clock, Charges(us)), ip) as real <= bound
    ensures Admitted(c, s, UploadsOnClock(clock, us), ip) as real <= 1024.0 * bound
  {
    AdmittedAtMostGranted(c, s, UploadsOnClock(clock, us), ip);
    ChargesOnClock(clock, us);
    KilobytesToBytes(Admitted(c, s, UploadsOnClock(clock, us), ip), Granted(c, s, OnClock(clock, Charges(us)), ip), bound);
  }

  lemma KilobytesToBytes(bytes: nat, units: nat, bound: real)
    requires bytes <= 1024 * units && units as real <= bound
    ensures bytes as real <= 1024.0 * bound
  {
    assert bytes as real <= (1024 * units) as real == 1024.0 * units as real;
  }

  // ----- the limiter as code -----

  class IpRateLimiter {
    const config: Config
    var limiters: map<string, Entry>
    var lastGC: real

    /**
     newIPRateLimiter: `n` units per window of that many seconds, `n` capped to
     what an int holds everywhere. The window is then `burst` ticks long.
     */
    constructor (n: nat, window: real, now: real)
      requires n > 0 && window > 0.0
      ensures config.Refills() && config.burst == Min(n, 2147483647)
      ensures var floor := config.burst as real / window * 600.0;
        config.idleTTL == if floor > config.burst as real then floor else config.burst as real
      ensures View() == State(map[], now)
    {
      var units := Min(n, MAX_INT32);
      var rate := units as real / window;
      var floor := rate * IDLE_TTL_FLOOR;
      config := Config(units, if floor > units as real then floor else units as real);
      limiters := map[];
      lastGC := now;
    }

    ghost function View(): State
      reads this
    {
      State(limiters, lastGC)
    }

    /** Spends `n` units of ip's bucket, sweeping at most once per TTL. */
    method AllowN(ip: string, n: nat, now: real) returns (ok: bool)
      requires config.Refills()
      modifies this
      ensures (View(), ok) == Allow(config, old(View()), Call(ip, n, now))
      ensures n > config.burst ==> !ok && View() == old(View())
    {
      if n > config.burst {
        return false;
      }
      var bucket := if ip in limiters then limiters[ip].bucket else config.NewBucket();
      limiters := limiters[ip := Entry(bucket, now)];
      if now - lastGC > config.idleTTL {
        SweepIdle(now);
        lastGC := now;
      }
      var (after, taken) := config.Take(bucket, n, now);
      limiters := limiters[ip := Entry(after, now)];
      ok := taken;
    }

    method SweepIdle(now: real)
      modifies `limiters
      ensures limiters == Sweep(config, old(limiters), now)
    {
      ghost var before := limiters;
      var keys := limiters.Keys;
      while keys != {}
        invariant keys <= before.Keys
        invariant limiters == map ip | ip in before && (ip in keys || !Idle(config, before[ip], now)) :: before[ip]
        decreases |keys|
      {
        var key :| key in keys;
        if Idle(config, limiters[key], now) {
          limiters := limiters - {key};
        }
        keys := keys - {key};
      }
    }
  }
}
