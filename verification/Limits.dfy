/**
 * The per-source token buckets of the request rate limiter. Times are seconds
 * and token counts are reals; the order in which the hash table enumerates its
 * keys is a parameter of each call.
 */
module Limits {
  import opened Bytes
  import opened Reals

  // ---- which bucket a source uses ---------------------------------------

  datatype IpAddr = V4(octets: seq<Byte>) | V6(octets: seq<Byte>)

  predicate ValidIp(ip: IpAddr) {
    |ip.octets| == if ip.V4? then 4 else 16
  }

  type Key = seq<Byte>

  function BucketKey(ip: IpAddr): Key
    requires ValidIp(ip)
  {
    if ip.V4? then [0, 0, 0, 0, 0, 0, 0, 0, 0, 0, 255, 255] + ip.octets
    else ip.octets[..8] + [0, 0, 0, 0, 0, 0, 0, 0]
  }

  /** Two sources share a bucket exactly when they are the same IPv4 address or the same IPv6 /64. */
  lemma SharedBucket(a: IpAddr, b: IpAddr)
    requires ValidIp(a) && ValidIp(b)
    ensures BucketKey(a) == BucketKey(b)
       <==> (if a.V4? && b.V4? then a.octets == b.octets else a.V6? && b.V6? && a.octets[..8] == b.octets[..8])
  {
    var x, y := BucketKey(a), BucketKey(b);
    if a.V4? && b.V4? {
      assert x[12..] == a.octets && y[12..] == b.octets;
    } else if a.V6? && b.V6? {
      assert x[..8] == a.octets[..8] && y[..8] == b.octets[..8];
    } else {
      assert x[10] != y[10];
    }
  }

  // ---- one call, on values ----------------------------------------------

  const EVICT_SAMPLE: nat := 8
  const SWEEP_INTERVAL: real := 60.0
  const IDLE_CUTOFF: real := 300.0

  datatype Bucket = Bucket(tokens: real, last: real)

  type Table = map<Key, Bucket>

  datatype Config = Config(rps: real, burst: real, maxTracked: nat)

  datatype State = State(buckets: Table, lastSweep: real)

  datatype Call = Call(now: real, key: Key, order: seq<Key>)

  /** Differences of clock readings saturate at zero. */
  function Since(now: real, then_: real): real {
    if now >= then_ then now - then_ else 0.0
  }

  function Sweep(s: State, now: real): State {
    if Since(now, s.lastSweep) < SWEEP_INTERVAL then s
    else State(map k | k in s.buckets && Since(now, s.buckets[k].last) < IDLE_CUTOFF :: s.buckets[k], now)
  }

  /** The first key of the sample among those longest unused. */
  function Oldest(b: Table, sample: seq<Key>): (oldest: Key)
    requires sample != [] && forall k :: k in sample ==> k in b
    ensures oldest in sample
    decreases |sample|
  {
    var front := sample[..|sample| - 1];
    if front == [] then sample[0]
    else
      var best := Oldest(b, front);
      if b[sample[|sample| - 1]].last < b[best].last then sample[|sample| - 1] else best
  }

  ghost predicate Enumerates(order: seq<Key>, b: Table) {
    && (forall k :: k in order <==> k in b)
    && forall i, j :: 0 <= i < j < |order| ==> order[i] != order[j]
  }

  predicate NeedsRoom(c: Config, b: Table, key: Key) {
    |b| >= c.maxTracked && key !in b
  }

  function Evicted(c: Config, b: Table, key: Key, order: seq<Key>): Option<Key>
    requires Enumerates(order, b)
  {
    if NeedsRoom(c, b, key) && order != [] then Some(Oldest(b, order[..Min(EVICT_SAMPLE, |order|)])) else None
  }

  function MakeRoom(c: Config, b: Table, key: Key, order: seq<Key>): Table
    requires Enumerates(order, b)
  {
    var victim := Evicted(c, b, key, order);
    if victim.Some? then b - {victim.value} else b
  }

  /** The tokens a source has at time `now`; a source without a bucket has a full one. */
  function Tokens(c: Config, b: Table, key: Key, now: real): real {
    if key in b then MinR(b[key].tokens + Since(now, b[key].last) * c.rps, c.burst) else c.burst
  }

  /** Draw on the bucket of `key`, which has room. */
  function Drawn(c: Config, b: Table, key: Key, now: real): (Table, bool) {
    var t := Tokens(c, b, key, now);
    if t >= 1.0 then (b[key := Bucket(t - 1.0, now)], true) else (b[key := Bucket(t, now)], false)
  }

  /** Sweep, make room, draw. */
  function Consume(c: Config, s: State, call: Call): (State, bool)
    requires Enumerates(call.order, Sweep(s, call.now).buckets)
  {
    var swept := Sweep(s, call.now);
    var (b, ok) := Drawn(c, MakeRoom(c, swept.buckets, call.key, call.order), call.key, call.now);
    (State(b, swept.lastSweep), ok)
  }

  /** The clock readings of a table are past, its token counts within the bucket. */
  ghost predicate Stocked(c: Config, b: Table, now: real) {
    forall k :: k in b ==> 0.0 <= b[k].tokens <= c.burst && b[k].last <= now
  }

  ghost predicate Valid(c: Config, b: Table, now: real) {
    c.rps >= 0.0 && c.burst >= 0.0 && Stocked(c, b, now)
  }

  // ---- what one call keeps ----------------------------------------------

  lemma TokensFlow(c: Config, b: Table, k: Key, s: real, t: real)
    requires Valid(c, b, s) && s <= t
    ensures 0.0 <= Tokens(c, b, k, t) <= c.burst
    ensures Tokens(c, b, k, t) <= Tokens(c, b, k, s) + c.rps * (t - s)
  {
    NonNegative(c.rps, t - s);
    if k in b {
      var last := b[k].last;
      NonNegative(s - last, c.rps);
      assert (t - last) * c.rps == (s - last) * c.rps + c.rps * (t - s);
    }
  }

  /** A sweep is invisible to every source, whatever the table, exactly when an idle bucket is sure to be full. */
  lemma SweepInvisibleIff(c: Config)
    requires c.rps >= 0.0 && c.burst >= 0.0
    ensures (forall s: State, now, k ::
               Valid(c, s.buckets, now) ==> Tokens(c, Sweep(s, now).buckets, k, now) == Tokens(c, s.buckets, k, now))
       <==> IDLE_CUTOFF * c.rps >= c.burst
  {
    if IDLE_CUTOFF * c.rps >= c.burst {
      forall s: State, now, k | Valid(c, s.buckets, now)
        ensures Tokens(c, Sweep(s, now).buckets, k, now) == Tokens(c, s.buckets, k, now)
      {
        SweepInvisible(c, s, now, k);
      }
    } else {
      var s := State(map[[] := Bucket(0.0, 0.0)], 0.0);
      assert Valid(c, s.buckets, IDLE_CUTOFF);
      assert Tokens(c, s.buckets, [], IDLE_CUTOFF) == IDLE_CUTOFF * c.rps;
      assert Tokens(c, Sweep(s, IDLE_CUTOFF).buckets, [], IDLE_CUTOFF) == c.burst;
    }
  }

  lemma SweepInvisible(c: Config, s: State, now: real, k: Key)
    requires Valid(c, s.buckets, now) && IDLE_CUTOFF * c.rps >= c.burst
    ensures Tokens(c, Sweep(s, now).buckets, k, now) == Tokens(c, s.buckets, k, now)
  {
    if k in s.buckets && k !in Sweep(s, now).buckets {
      RefillsWholly(c, s.buckets[k].tokens, Since(now, s.buckets[k].last));
    } else {
      assert k in s.buckets ==> Sweep(s, now).buckets[k] == s.buckets[k];
    }
  }

  lemma RefillsWholly(c: Config, tokens: real, idle: real)
    requires c.rps >= 0.0 && tokens >= 0.0 && idle >= IDLE_CUTOFF && IDLE_CUTOFF * c.rps >= c.burst
    ensures tokens + idle * c.rps >= c.burst
  {
    NonNegative(idle - IDLE_CUTOFF, c.rps);
    assert (idle - IDLE_CUTOFF) * c.rps == idle * c.rps - IDLE_CUTOFF * c.rps;
  }

  lemma SweepValid(c: Config, s: State, now: real)
    requires Valid(c, s.buckets, now)
    ensures Valid(c, Sweep(s, now).buckets, now) && |Sweep(s, now).buckets| <= |s.buckets|
  {
    var kept := Sweep(s, now).buckets;
    assert kept.Keys <= s.buckets.Keys;
    CountLe(kept.Keys, s.buckets.Keys);
  }

  lemma {:induction false} CountLe(a: set<Key>, b: set<Key>)
    requires a <= b
    ensures |a| <= |b|
  {
    if a != {} {
      var x :| x in a;
      CountLe(a - {x}, b - {x});
    }
  }

  lemma {:induction false} OldestInSample(b: Table, sample: seq<Key>)
    requires sample != [] && forall k :: k in sample ==> k in b
    ensures forall k :: k in sample ==> b[Oldest(b, sample)].last <= b[k].last
    decreases |sample|
  {
    if |sample| > 1 {
      OldestInSample(b, sample[..|sample| - 1]);
    }
  }

  /** Making room touches no source but the victim. */
  lemma MakeRoomKeeps(c: Config, b: Table, key: Key, order: seq<Key>, k: Key, now: real)
    requires Enumerates(order, b) && Valid(c, b, now)
    ensures Valid(c, MakeRoom(c, b, key, order), now)
    ensures Evicted(c, b, key, order) != Some(k) ==>
        Tokens(c, MakeRoom(c, b, key, order), k, now) == Tokens(c, b, k, now)
  {
    hide Oldest, Enumerates, NeedsRoom;
  }

  /** A full table gives up one bucket for a new source. */
  lemma MakeRoomFits(c: Config, b: Table, key: Key, order: seq<Key>)
    requires Enumerates(order, b) && 1 <= c.maxTracked && |b| <= c.maxTracked
    ensures |MakeRoom(c, b, key, order).Keys + {key}| <= c.maxTracked
  {
    hide Oldest;
    if NeedsRoom(c, b, key) {
      var x :| x in b;
      assert x in order;
      var victim := Oldest(b, order[..Min(EVICT_SAMPLE, |order|)]);
      assert victim in order;
      assert (b - {victim}).Keys == b.Keys - {victim};
    } else if key in b {
      assert b.Keys + {key} == b.Keys;
    }
  }

  /** A draw costs the source one token if it is admitted, and nobody else anything. */
  lemma DrawSpendsOne(c: Config, b: Table, key: Key, k: Key, now: real)
    requires Valid(c, b, now)
    ensures var (t, ok) := Drawn(c, b, key, now);
            && Valid(c, t, now) && t.Keys == b.Keys + {key}
            && (ok <==> Tokens(c, b, key, now) >= 1.0)
            && Tokens(c, t, k, now) == Tokens(c, b, k, now) - (if k == key && ok then 1.0 else 0.0)
  {
    TokensFlow(c, b, key, now, now);
    hide Tokens;
    var t := Drawn(c, b, key, now).0;
    if k == key {
      TokensNow(c, t, key, now);
    } else {
      TokensElsewhere(c, b, t, k, now);
    }
  }

  lemma TokensNow(c: Config, b: Table, key: Key, now: real)
    requires key in b && b[key].last == now && b[key].tokens <= c.burst
    ensures Tokens(c, b, key, now) == b[key].tokens
  {
  }

  lemma TokensElsewhere(c: Config, b: Table, t: Table, k: Key, now: real)
    requires (k in b <==> k in t) && (k in b ==> b[k] == t[k])
    ensures Tokens(c, t, k, now) == Tokens(c, b, k, now)
  {
  }

  // ---- runs -------------------------------------------------------------

  /** Each call enumerates the table it finds, and no clock reading runs backwards from `from`. */
  ghost predicate Lawful(c: Config, s: State, calls: seq<Call>, from: real)
    decreases |calls|
  {
    calls == [] ||
    (from <= calls[0].now && Enumerates(calls[0].order, Sweep(s, calls[0].now).buckets) &&
     Lawful(c, Consume(c, s, calls[0]).0, calls[1..], calls[0].now))
  }

  function Run(c: Config, s: State, calls: seq<Call>, from: real): State
    requires Lawful(c, s, calls, from)
    decreases |calls|
  {
    if calls == [] then s else Run(c, Consume(c, s, calls[0]).0, calls[1..], calls[0].now)
  }

  /** How many of the calls of source `k` are admitted. */
  function Admitted(c: Config, s: State, calls: seq<Call>, from: real, k: Key): nat
    requires Lawful(c, s, calls, from)
    decreases |calls|
  {
    if calls == [] then 0
    else
      var (t, ok) := Consume(c, s, calls[0]);
      (if ok && calls[0].key == k then 1 else 0) + Admitted(c, t, calls[1..], calls[0].now, k)
  }

  /** Source `k` is never the victim of a full table. */
  predicate Spared(c: Config, s: State, calls: seq<Call>, from: real, k: Key)
    requires Lawful(c, s, calls, from)
    decreases |calls|
  {
    calls == [] ||
    (Evicted(c, Sweep(s, calls[0].now).buckets, calls[0].key, calls[0].order) != Some(k) &&
     Spared(c, Consume(c, s, calls[0]).0, calls[1..], calls[0].now, k))
  }

  predicate EndsBy(calls: seq<Call>, from: real, to: real) {
    from <= to && forall i :: 0 <= i < |calls| ==> calls[i].now <= to
  }

  lemma StepSpends(c: Config, s: State, call: Call, from: real, k: Key)
    requires Valid(c, s.buckets, from) && from <= call.now && Enumerates(call.order, Sweep(s, call.now).buckets)
    requires IDLE_CUTOFF * c.rps >= c.burst
    requires Evicted(c, Sweep(s, call.now).buckets, call.key, call.order) != Some(k)
    ensures var (t, ok) := Consume(c, s, call);
            && Valid(c, t.buckets, call.now)
            && Tokens(c, t.buckets, k, call.now) + (if ok && call.key == k then 1.0 else 0.0)
               <= Tokens(c, s.buckets, k, from) + c.rps * (call.now - from)
  {
    hide Sweep, Tokens, Drawn, MakeRoom, Evicted, Enumerates, Valid;
    ValidLater(c, s.buckets, from, call.now);
    TokensFlow(c, s.buckets, k, from, call.now);
    SweepInvisible(c, s, call.now, k);
    SweepValid(c, s, call.now);
    MakeRoomKeeps(c, Sweep(s, call.now).buckets, call.key, call.order, k, call.now);
    DrawSpendsOne(c, MakeRoom(c, Sweep(s, call.now).buckets, call.key, call.order), call.key, k, call.now);
  }

  lemma ValidLater(c: Config, b: Table, s: real, t: real)
    requires Valid(c, b, s) && s <= t
    ensures Valid(c, b, t)
  {
  }

  /** A source that is never evicted gets at most what it had, plus `rps` a second: at most `burst` and the refill. */
  lemma {:induction false} AdmittedAtMost(c: Config, s: State, calls: seq<Call>, from: real, to: real, k: Key)
    requires Lawful(c, s, calls, from) && Valid(c, s.buckets, from) && EndsBy(calls, from, to)
    requires IDLE_CUTOFF * c.rps >= c.burst && Spared(c, s, calls, from, k)
    ensures Admitted(c, s, calls, from, k) as real <= Tokens(c, s.buckets, k, from) + c.rps * (to - from)
    ensures Admitted(c, s, calls, from, k) as real <= c.burst + c.rps * (to - from)
    decreases |calls|
  {
    hide Consume, Sweep, Tokens, Enumerates, Evicted, Valid;
    TokensFlow(c, s.buckets, k, from, from);
    RateOf(c, s, from);
    if calls == [] {
      assert c.rps * (to - from) >= 0.0;
    } else {
      var now := calls[0].now;
      StepSpends(c, s, calls[0], from, k);
      AdmittedAtMost(c, Consume(c, s, calls[0]).0, calls[1..], now, to, k);
      assert c.rps * (to - from) == c.rps * (to - now) + c.rps * (now - from);
    }
  }

  lemma RateOf(c: Config, s: State, now: real)
    requires Valid(c, s.buckets, now)
    ensures c.rps >= 0.0
  {
  }

  /** The table never outgrows its cap, whatever the sources and however the table enumerates them. */
  lemma {:induction false} TableStaysBounded(c: Config, s: State, calls: seq<Call>, from: real)
    requires Lawful(c, s, calls, from) && Valid(c, s.buckets, from)
    requires 1 <= c.maxTracked && |s.buckets| <= c.maxTracked
    ensures |Run(c, s, calls, from).buckets| <= c.maxTracked
    decreases |calls|
  {
    hide Consume, Sweep, Enumerates, Valid;
    if calls != [] {
      StepStaysBounded(c, s, calls[0], from);
      TableStaysBounded(c, Consume(c, s, calls[0]).0, calls[1..], calls[0].now);
    }
  }

  lemma StepStaysBounded(c: Config, s: State, call: Call, from: real)
    requires Valid(c, s.buckets, from) && from <= call.now && Enumerates(call.order, Sweep(s, call.now).buckets)
    requires 1 <= c.maxTracked && |s.buckets| <= c.maxTracked
    ensures var t := Consume(c, s, call).0; Valid(c, t.buckets, call.now) && |t.buckets| <= c.maxTracked
  {
    hide Sweep, Drawn, MakeRoom, Enumerates, Valid;
    ValidLater(c, s.buckets, from, call.now);
    SweepValid(c, s, call.now);
    var b := Sweep(s, call.now).buckets;
    MakeRoomKeeps(c, b, call.key, call.order, call.key, call.now);
    MakeRoomFits(c, b, call.key, call.order);
    DrawSpendsOne(c, MakeRoom(c, b, call.key, call.order), call.key, call.key, call.now);
    var t := Consume(c, s, call).0;
    assert |t.buckets| == |t.buckets.Keys|;
  }

  // ---- an idle cutoff too short for the burst ----------------------------

  /** The run is lawful, spares `k`, and admits `n` of its calls. */
  ghost predicate Gets(c: Config, s: State, calls: seq<Call>, from: real, k: Key, n: nat) {
    Lawful(c, s, calls, from) && Spared(c, s, calls, from, k) && Admitted(c, s, calls, from, k) == n
  }

  function One(k: Key, tokens: real, now: real, lastSweep: real): State {
    State(map[k := Bucket(tokens, now)], lastSweep)
  }

  lemma GetsOneMore(c: Config, s: State, call: Call, rest: seq<Call>, from: real, n: nat)
    requires from <= call.now && Enumerates(call.order, Sweep(s, call.now).buckets) && Consume(c, s, call).1
    requires Evicted(c, Sweep(s, call.now).buckets, call.key, call.order) != Some(call.key)
    requires Gets(c, Consume(c, s, call).0, rest, call.now, call.key, n)
    ensures Gets(c, s, [call] + rest, from, call.key, n + 1)
  {
    hide Consume, Sweep, Evicted, Enumerates;
    assert ([call] + rest)[1..] == rest;
  }

  lemma DrawOne(c: Config, k: Key, tokens: real, now: real, lastSweep: real)
    requires 1.0 <= tokens <= c.burst && lastSweep <= now < lastSweep + SWEEP_INTERVAL
    ensures var call, s := Call(now, k, [k]), One(k, tokens, now, lastSweep);
            && Sweep(s, now) == s && Enumerates([k], s.buckets) && Evicted(c, s.buckets, k, [k]) == None
            && Consume(c, s, call) == (One(k, tokens - 1.0, now, lastSweep), true)
  {
    var s := One(k, tokens, now, lastSweep);
    assert s.buckets[k := Bucket(tokens - 1.0, now)] == map[k := Bucket(tokens - 1.0, now)];
  }

  /** A bucket of `n` tokens and a fraction admits `n` calls at once. */
  lemma {:induction false} Drains(c: Config, k: Key, n: nat, f: real, now: real, lastSweep: real, rest: seq<Call>,
                                  m: nat)
    requires 0.0 <= f && n as real + f <= c.burst && lastSweep <= now < lastSweep + SWEEP_INTERVAL
    requires Gets(c, One(k, f, now, lastSweep), rest, now, k, m)
    ensures Gets(c, One(k, n as real + f, now, lastSweep), seq(n, _ => Call(now, k, [k])) + rest, now, k, n + m)
  {
    hide Gets, Consume, Sweep, Evicted, Enumerates;
    var call := Call(now, k, [k]);
    var calls := seq(n, _ => call);
    if n == 0 {
      assert calls + rest == rest && n as real + f == f;
    } else {
      Drains(c, k, n - 1, f, now, lastSweep, rest, m);
      DrawOne(c, k, n as real + f, now, lastSweep);
      assert n as real + f - 1.0 == (n - 1) as real + f;
      GetsOneMore(c, One(k, n as real + f, now, lastSweep), call, seq(n - 1, _ => call) + rest, now, n - 1 + m);
      assert [call] + (seq(n - 1, _ => call) + rest) == calls + rest;
    }
  }

  /** A source that finds no bucket gets a full one. */
  lemma StartsFull(c: Config, s: State, k: Key, now: real)
    requires Sweep(s, now).buckets == map[] && 1.0 <= c.burst && 1 <= c.maxTracked
    ensures Enumerates([], Sweep(s, now).buckets) && Evicted(c, Sweep(s, now).buckets, k, []) == None
    ensures Consume(c, s, Call(now, k, [])) == (One(k, c.burst - 1.0, now, Sweep(s, now).lastSweep), true)
  {
    var none: Table := map[];
    assert none[k := Bucket(c.burst - 1.0, now)] == map[k := Bucket(c.burst - 1.0, now)];
  }

  /** The whole tokens of a full bucket, and the rest. */
  function Whole(c: Config): (n: nat)
    requires c.burst >= 1.0
    ensures n >= 1 && n as real <= c.burst < n as real + 1.0
  {
    c.burst.Floor
  }

  function Fraction(c: Config): real
    requires c.burst >= 1.0
  {
    c.burst - Whole(c) as real
  }

  /** All the calls a fresh bucket admits at `t`. */
  function Burst(c: Config, k: Key, t: real): seq<Call>
    requires c.burst >= 1.0
  {
    [Call(t, k, [])] + seq(Whole(c) - 1, _ => Call(t, k, [k]))
  }

  lemma BurstGets(c: Config, k: Key, s: State, from: real, t: real, rest: seq<Call>, m: nat)
    requires c.burst >= 1.0 && 1 <= c.maxTracked && from <= t && s.lastSweep <= t && Sweep(s, t).buckets == map[]
    requires Gets(c, One(k, Fraction(c), t, Sweep(s, t).lastSweep), rest, t, k, m)
    ensures Gets(c, s, Burst(c, k, t) + rest, from, k, Whole(c) + m)
  {
    hide Consume, Evicted, Enumerates, Gets;
    var n, f, swept := Whole(c), Fraction(c), Sweep(s, t).lastSweep;
    var more := seq(n - 1, _ => Call(t, k, [k]));
    Drains(c, k, n - 1, f, t, swept, rest, m);
    StartsFull(c, s, k, t);
    assert (n - 1) as real + f == c.burst - 1.0;
    GetsOneMore(c, s, Call(t, k, []), more + rest, from, n - 1 + m);
    assert Burst(c, k, t) + rest == [Call(t, k, [])] + (more + rest);
  }

  lemma GoneAfterIdle(k: Key, tokens: real, last: real, lastSweep: real)
    requires lastSweep <= last
    ensures Sweep(One(k, tokens, last, lastSweep), last + IDLE_CUTOFF) == State(map[], last + IDLE_CUTOFF)
  {
  }

  /** With 300 seconds too short to refill a bucket, sweeping it lets a source have two bursts in 300 seconds. */
  lemma SweepGrantsSecondBurst(c: Config, k: Key) returns (calls: seq<Call>)
    requires 0.0 <= c.rps && 1 <= c.maxTracked
    requires c.burst >= 1.0 && 2.0 * Whole(c) as real > c.burst + c.rps * IDLE_CUTOFF
    ensures Gets(c, State(map[], 0.0), calls, 0.0, k, 2 * Whole(c)) && EndsBy(calls, 0.0, IDLE_CUTOFF)
  {
    hide Gets, Sweep;
    var f := Fraction(c);
    EmptyStays(0.0, 0.0);
    GoneAfterIdle(k, f, 0.0, 0.0);
    GetsNothing(c, One(k, f, IDLE_CUTOFF, IDLE_CUTOFF), IDLE_CUTOFF, k);
    BurstGets(c, k, One(k, f, 0.0, 0.0), 0.0, IDLE_CUTOFF, [], 0);
    var late := Burst(c, k, IDLE_CUTOFF) + [];
    BurstGets(c, k, State(map[], 0.0), 0.0, 0.0, late, Whole(c));
    calls := Burst(c, k, 0.0) + late;
  }

  lemma EmptyStays(lastSweep: real, now: real)
    ensures Sweep(State(map[], lastSweep), now).buckets == map[]
    ensures lastSweep == now ==> Sweep(State(map[], lastSweep), now) == State(map[], lastSweep)
  {
  }

  // A source can do so over and over; where a burst alone gains nothing, it
  // first spends the fraction left, so that the sweep forgives a whole burst.

  /** The call that spends the fraction a burst leaves, once it has grown to a token. */
  function Second(c: Config, t: real): real
    requires c.burst >= 1.0 && c.rps > 0.0
  {
    t + (1.0 - Fraction(c)) / c.rps
  }

  predicate BurstGains(c: Config)
    requires c.burst >= 1.0
  {
    Whole(c) as real > IDLE_CUTOFF * c.rps
  }

  function Round(c: Config, k: Key, t: real): seq<Call>
    requires c.burst >= 1.0 && (BurstGains(c) || c.rps > 0.0)
  {
    if BurstGains(c) then Burst(c, k, t) else Burst(c, k, t) + [Call(Second(c, t), k, [k])]
  }

  function RoundCount(c: Config): nat
    requires c.burst >= 1.0
  {
    Whole(c) + if BurstGains(c) then 0 else 1
  }

  function RoundLast(c: Config, t: real): real
    requires c.burst >= 1.0 && (BurstGains(c) || c.rps > 0.0)
  {
    if BurstGains(c) then t else Second(c, t)
  }

  function RoundEnd(c: Config, k: Key, s: State, t: real): State
    requires c.burst >= 1.0 && (BurstGains(c) || c.rps > 0.0)
  {
    var after := One(k, Fraction(c), t, Sweep(s, t).lastSweep);
    if BurstGains(c) then after else One(k, 0.0, Second(c, t), Sweep(after, Second(c, t)).lastSweep)
  }

  /** A sweep that is too short for the burst leaves time for the second call. */
  lemma SecondIsSoon(c: Config, t: real)
    requires c.rps >= 0.0 && c.burst >= 1.0 && IDLE_CUTOFF * c.rps < c.burst && !BurstGains(c)
    ensures c.rps > 0.0 && t < Second(c, t) < t + IDLE_CUTOFF
    ensures (Second(c, t) - t) * c.rps == 1.0 - Fraction(c)
  {
    var wait := (1.0 - Fraction(c)) / c.rps;
    assert wait * c.rps == 1.0 - Fraction(c);
    SameOrder(IDLE_CUTOFF, wait, c.rps);
    SameOrder(wait, 0.0, c.rps);
  }

  lemma SecondDraws(c: Config, k: Key, t: real, lastSweep: real)
    requires c.rps >= 0.0 && c.burst >= 1.0 && IDLE_CUTOFF * c.rps < c.burst && !BurstGains(c)
    requires c.rps > 0.0 && lastSweep <= t
    ensures var s, now := One(k, Fraction(c), t, lastSweep), Second(c, t);
            && Enumerates([k], Sweep(s, now).buckets) && Evicted(c, Sweep(s, now).buckets, k, [k]) == None
            && Consume(c, s, Call(now, k, [k])) == (One(k, 0.0, now, Sweep(s, now).lastSweep), true)
            && Sweep(s, now).lastSweep <= now
  {
    SecondIsSoon(c, t);
    var s, now := One(k, Fraction(c), t, lastSweep), Second(c, t);
    assert Sweep(s, now).buckets == s.buckets;
    assert Since(now, t) * c.rps == 1.0 - Fraction(c);
    assert Tokens(c, s.buckets, k, now) == 1.0;
    assert s.buckets[k := Bucket(0.0, now)] == map[k := Bucket(0.0, now)];
  }

  lemma RoundGets(c: Config, k: Key, s: State, t: real, rest: seq<Call>, from: real, m: nat)
    requires c.rps >= 0.0 && c.burst >= 1.0 && IDLE_CUTOFF * c.rps < c.burst && 1 <= c.maxTracked
    requires BurstGains(c) || c.rps > 0.0
    requires from <= t && s.lastSweep <= t && Sweep(s, t).buckets == map[]
    requires Gets(c, RoundEnd(c, k, s, t), rest, RoundLast(c, t), k, m)
    ensures Gets(c, s, Round(c, k, t) + rest, from, k, RoundCount(c) + m)
  {
    hide Gets, Consume, Evicted, Enumerates, Second;
    if BurstGains(c) {
      BurstGets(c, k, s, from, t, rest, m);
    } else {
      var swept := Sweep(s, t).lastSweep;
      var second := Call(Second(c, t), k, [k]);
      SecondIsSoon(c, t);
      SecondDraws(c, k, t, swept);
      GetsOneMore(c, One(k, Fraction(c), t, swept), second, rest, t, m);
      BurstGets(c, k, s, from, t, [second] + rest, m + 1);
      assert Burst(c, k, t) + ([second] + rest) == Round(c, k, t) + rest;
    }
  }

  function RoundTime(c: Config): real
    requires c.burst >= 1.0 && (BurstGains(c) || c.rps > 0.0)
  {
    RoundLast(c, 0.0) + IDLE_CUTOFF
  }

  /** Every round gains over the rate. */
  lemma RoundGains(c: Config)
    requires c.rps >= 0.0 && c.burst >= 1.0 && IDLE_CUTOFF * c.rps < c.burst
    ensures BurstGains(c) || c.rps > 0.0
    ensures RoundTime(c) >= IDLE_CUTOFF && RoundCount(c) as real - RoundTime(c) * c.rps > 0.0
  {
    if !BurstGains(c) {
      SecondIsSoon(c, 0.0);
      var wait := Second(c, 0.0);
      assert (wait + IDLE_CUTOFF) * c.rps == wait * c.rps + IDLE_CUTOFF * c.rps;
    }
  }

  lemma RoundEndsBy(c: Config, k: Key, t: real)
    requires c.rps >= 0.0 && c.burst >= 1.0 && IDLE_CUTOFF * c.rps < c.burst && (BurstGains(c) || c.rps > 0.0)
    ensures t <= RoundLast(c, t) && RoundLast(c, t) + IDLE_CUTOFF == t + RoundTime(c)
    ensures EndsBy(Round(c, k, t), t, RoundLast(c, t))
  {
    if !BurstGains(c) {
      SecondIsSoon(c, t);
    }
  }

  /** `m` rounds, from any state whose table the next sweep empties. */
  lemma {:induction false} Rounds(c: Config, k: Key, s: State, t: real, m: nat) returns (calls: seq<Call>)
    requires c.rps >= 0.0 && c.burst >= 1.0 && IDLE_CUTOFF * c.rps < c.burst && 1 <= c.maxTracked
    requires BurstGains(c) || c.rps > 0.0
    requires s.lastSweep <= t && Sweep(s, t).buckets == map[]
    ensures forall from :: from <= t ==> Gets(c, s, calls, from, k, m * RoundCount(c))
    ensures RoundTime(c) >= 0.0 && EndsBy(calls, t, t + m as real * RoundTime(c))
    decreases m
  {
    hide Gets, Round, RoundCount, Second, EndsBy;
    RoundGains(c);
    RoundEndsBy(c, k, t);
    if m == 0 {
      calls := [];
      NoCalls(c, s, t, k);
    } else {
      var end, last := RoundEnd(c, k, s, t), RoundLast(c, t);
      NextRound(c, k, s, t);
      var rest := Rounds(c, k, end, t + RoundTime(c), m - 1);
      calls := Round(c, k, t) + rest;
      forall from | from <= t
        ensures Gets(c, s, calls, from, k, m * RoundCount(c))
      {
        RoundGets(c, k, s, t, rest, from, (m - 1) * RoundCount(c));
      }
      assert t + RoundTime(c) + (m - 1) as real * RoundTime(c) == t + m as real * RoundTime(c);
      NonNegative((m - 1) as real, RoundTime(c));
      EndsTogether(Round(c, k, t), rest, t, last, t + RoundTime(c), t + m as real * RoundTime(c));
    }
  }

  lemma NoCalls(c: Config, s: State, t: real, k: Key)
    ensures forall from :: Gets(c, s, [], from, k, 0)
    ensures EndsBy([], t, t)
  {
  }

  lemma EndsTogether(xs: seq<Call>, ys: seq<Call>, from: real, mid: real, next: real, to: real)
    requires EndsBy(xs, from, mid) && mid <= next && EndsBy(ys, next, to)
    ensures EndsBy(xs + ys, from, to)
  {
  }

  /** After a round and 300 idle seconds the source's bucket is swept away. */
  lemma NextRound(c: Config, k: Key, s: State, t: real)
    requires c.rps >= 0.0 && c.burst >= 1.0 && IDLE_CUTOFF * c.rps < c.burst && (BurstGains(c) || c.rps > 0.0)
    requires s.lastSweep <= t
    ensures RoundEnd(c, k, s, t).lastSweep <= t + RoundTime(c)
    ensures Sweep(RoundEnd(c, k, s, t), t + RoundTime(c)).buckets == map[]
    ensures t <= RoundLast(c, t) <= t + RoundTime(c)
  {
    hide Second;
    RoundEndsBy(c, k, t);
    if !BurstGains(c) {
      SecondIsSoon(c, t);
    }
    var end := RoundEnd(c, k, s, t);
    GoneAfterIdle(k, if BurstGains(c) then Fraction(c) else 0.0, RoundLast(c, t), end.lastSweep);
  }

  /** Every window of every run that spares the source stays within a burst and the refill. */
  ghost predicate WindowsBounded(c: Config) {
    forall s: State, calls, from, to, k ::
      Valid(c, s.buckets, from) && Lawful(c, s, calls, from) && EndsBy(calls, from, to) && Spared(c, s, calls, from, k)
      ==> Admitted(c, s, calls, from, k) as real <= c.burst + c.rps * (to - from)
  }

  /**
   * The window bound holds in all runs exactly when no source is ever admitted, or an idle bucket
   * is sure to be full.
   */
  lemma WindowsBoundedIff(c: Config)
    requires c.rps >= 0.0 && c.burst >= 0.0 && 1 <= c.maxTracked
    ensures WindowsBounded(c) <==> c.burst < 1.0 || IDLE_CUTOFF * c.rps >= c.burst
  {
    hide Valid, Lawful, EndsBy, Spared, Admitted, RoundTime, RoundCount;
    if c.burst < 1.0 || IDLE_CUTOFF * c.rps >= c.burst {
      forall s: State, calls, from, to, j |
        Valid(c, s.buckets, from) && Lawful(c, s, calls, from) && EndsBy(calls, from, to)
            && Spared(c, s, calls, from, j)
        ensures Admitted(c, s, calls, from, j) as real <= c.burst + c.rps * (to - from)
      {
        WindowKept(c, s, calls, from, to, j);
      }
    } else {
      WindowExceeded(c, []);
    }
  }

  lemma WindowKept(c: Config, s: State, calls: seq<Call>, from: real, to: real, k: Key)
    requires c.rps >= 0.0 && c.burst >= 0.0 && (c.burst < 1.0 || IDLE_CUTOFF * c.rps >= c.burst)
    requires Valid(c, s.buckets, from) && Lawful(c, s, calls, from) && EndsBy(calls, from, to)
             && Spared(c, s, calls, from, k)
    ensures Admitted(c, s, calls, from, k) as real <= c.burst + c.rps * (to - from)
  {
    hide Valid, Lawful, Spared, Admitted;
    if IDLE_CUTOFF * c.rps >= c.burst {
      AdmittedAtMost(c, s, calls, from, to, k);
    } else {
      NeverAdmitted(c, s, calls, from, k);
      NonNegative(c.rps, to - from);
    }
  }

  lemma WindowExceeded(c: Config, k: Key)
    requires c.rps >= 0.0 && c.burst >= 1.0 && 1 <= c.maxTracked && IDLE_CUTOFF * c.rps < c.burst
    ensures !WindowsBounded(c)
  {
    hide Lawful, EndsBy, Spared, Admitted, RoundTime, RoundCount, BurstGains;
    RoundGains(c);
    var gain := RoundCount(c) as real - RoundTime(c) * c.rps;
    var m: nat := (c.burst / gain).Floor + 1;
    assert c.burst / gain * gain == c.burst;
    SameOrder(m as real, c.burst / gain, gain);
    assert m as real * gain > c.burst;
    EmptyStays(0.0, 0.0);
    var empty := State(map[], 0.0);
    var calls := Rounds(c, k, empty, 0.0, m);
    var to := 0.0 + m as real * RoundTime(c);
    assert m as real * gain == (m * RoundCount(c)) as real - c.rps * (to - 0.0);
    assert Gets(c, empty, calls, 0.0, k, m * RoundCount(c));
    assert Valid(c, empty.buckets, 0.0);
    assert !(Admitted(c, empty, calls, 0.0, k) as real <= c.burst + c.rps * (to - 0.0));
  }

  /** A bucket too small for a token admits nobody. */
  lemma {:induction false} NeverAdmitted(c: Config, s: State, calls: seq<Call>, from: real, k: Key)
    requires c.burst < 1.0 && Lawful(c, s, calls, from)
    ensures Admitted(c, s, calls, from, k) == 0
    decreases |calls|
  {
    hide Sweep, MakeRoom, Enumerates, Evicted;
    if calls != [] {
      NeverAdmitted(c, Consume(c, s, calls[0]).0, calls[1..], calls[0].now, k);
    }
  }

  lemma GetsNothing(c: Config, s: State, from: real, k: Key)
    ensures Gets(c, s, [], from, k, 0)
  {
  }

  // ---- the back-off hint ------------------------------------------------

  const U32_MAX: int := 0xFFFF_FFFF

  function Ceil(x: real): int {
    -((-x).Floor)
  }

  function RetryAfterMillis(c: Config): int {
    if c.rps <= 0.0 then 1000
    else
      var ms := Ceil(1000.0 / c.rps);
      if ms < 1 then 1 else if ms > U32_MAX then U32_MAX else ms
  }

  function RetryAfter(c: Config): (wait: real)
    ensures wait > 0.0
  {
    RetryAfterMillis(c) as real / 1000.0
  }

  /** The clock readings of the state are past. */
  ghost predicate Settled(c: Config, s: State, now: real) {
    Stocked(c, s.buckets, now) && s.lastSweep <= now
  }

  /**
   * A source is refused, others go on calling, and it calls again no earlier
   * than it was told.
   */
  ghost predicate WaitsAsTold(c: Config, s: State, call: Call, others: seq<Call>, again: Call) {
    && Enumerates(call.order, Sweep(s, call.now).buckets) && !Consume(c, s, call).1
    && Lawful(c, Consume(c, s, call).0, others, call.now)
    && (forall i :: 0 <= i < |others| ==> others[i].key != call.key)
    && var t := Run(c, Consume(c, s, call).0, others, call.now);
    && again.key == call.key && again.now >= call.now + RetryAfter(c)
    && EndsBy(others, call.now, again.now) && Enumerates(again.order, Sweep(t, again.now).buckets)
  }

  function AdmittedAgain(c: Config, s: State, call: Call, others: seq<Call>, again: Call): bool
    requires WaitsAsTold(c, s, call, others, again)
  {
    Consume(c, Run(c, Consume(c, s, call).0, others, call.now), again).1
  }

  /** Whatever the state, the source and the others: if it is refused and waits as told, it is admitted. */
  ghost predicate HintSuffices(c: Config) {
    forall s: State, call: Call, others, again | Settled(c, s, call.now) && WaitsAsTold(c, s, call, others, again) ::
      AdmittedAgain(c, s, call, others, again)
  }

  /**
   * The back-off hint is enough exactly when the bucket can hold a token and
   * the rate is positive, for any configuration. A rate so low that the hint
   * is cut to 32 bits is no exception: long before it is over the idle bucket
   * has been swept.
   */
  lemma RetryHintSufficesIff(c: Config)
    ensures HintSuffices(c) <==> c.burst >= 1.0 && c.rps > 0.0
  {
    hide WaitsAsTold, Settled, RetryAfter;
    if c.burst < 1.0 {
      SmallBurstHint(c, []);
    } else if c.rps <= 0.0 {
      NoRateFails(c, [], 0.0);
    } else {
      forall s: State, call: Call, others, again | Settled(c, s, call.now) && WaitsAsTold(c, s, call, others, again)
        ensures AdmittedAgain(c, s, call, others, again)
      {
        AdmittedAfterWaiting(c, s, call, others, again);
      }
    }
  }

  /** A whole token takes no longer than the hint, exactly when the hint is not cut short. */
  lemma HintIsAToken(c: Config)
    requires c.rps > 0.0
    ensures RetryAfter(c) * c.rps >= 1.0 <==> U32_MAX as real * c.rps >= 1000.0
  {
    var ms := RetryAfterMillis(c) as real;
    var q := 1000.0 / c.rps;
    assert q * c.rps == 1000.0;
    assert ms / 1000.0 * c.rps * 1000.0 == ms * c.rps;
    SameOrder(q, U32_MAX as real, c.rps);
    SameOrder(q, ms, c.rps);
  }

  /** A hint that is cut short is longer than an idle bucket lasts. */
  lemma CutHintIsLong(c: Config)
    requires c.rps > 0.0 && U32_MAX as real * c.rps < 1000.0
    ensures RetryAfter(c) > IDLE_CUTOFF + SWEEP_INTERVAL
  {
    var q := 1000.0 / c.rps;
    assert q * c.rps == 1000.0;
    SameOrder(q, U32_MAX as real, c.rps);
    assert RetryAfterMillis(c) == U32_MAX;
  }

  /**
   * Since it was refused at `then_`, the bucket of `k` is as it was, or gone;
   * and it is gone once a sweep finds it idle.
   */
  ghost predicate Untouched(s: State, k: Key, then_: real) {
    k in s.buckets ==>
      s.buckets[k].last == then_ && s.buckets[k].tokens >= 0.0 && s.lastSweep < then_ + IDLE_CUTOFF
  }

  lemma RefusalLeaves(c: Config, s: State, call: Call)
    requires c.rps > 0.0 && c.burst >= 1.0 && Settled(c, s, call.now)
    requires Enumerates(call.order, Sweep(s, call.now).buckets) && !Consume(c, s, call).1
    ensures Untouched(Consume(c, s, call).0, call.key, call.now)
  {
    hide Enumerates, Oldest;
    var swept := Sweep(s, call.now);
    SweepValid(c, s, call.now);
    MakeRoomKeeps(c, swept.buckets, call.key, call.order, call.key, call.now);
    TokensFlow(c, MakeRoom(c, swept.buckets, call.key, call.order), call.key, call.now, call.now);
  }

  lemma OthersLeave(c: Config, s: State, call: Call, k: Key, then_: real)
    requires Untouched(s, k, then_) && call.key != k && then_ <= call.now
    requires Enumerates(call.order, Sweep(s, call.now).buckets)
    ensures Untouched(Consume(c, s, call).0, k, then_)
  {
    hide Enumerates, Oldest, Tokens;
  }

  lemma {:induction false} RunLeaves(c: Config, s: State, calls: seq<Call>, from: real, k: Key, then_: real)
    requires Lawful(c, s, calls, from) && Untouched(s, k, then_) && then_ <= from
    requires forall i :: 0 <= i < |calls| ==> calls[i].key != k
    ensures Untouched(Run(c, s, calls, from), k, then_)
    decreases |calls|
  {
    hide Consume, Sweep, Enumerates, Untouched;
    if calls != [] {
      OthersLeave(c, s, calls[0], k, then_);
      RunLeaves(c, Consume(c, s, calls[0]).0, calls[1..], calls[0].now, k, then_);
    }
  }

  /** Waiting as told, an untouched bucket has a token, or is swept and starts over full. */
  lemma UntouchedIsAdmitted(c: Config, s: State, again: Call, then_: real)
    requires c.rps > 0.0 && c.burst >= 1.0 && Untouched(s, again.key, then_) && again.now >= then_ + RetryAfter(c)
    requires Enumerates(again.order, Sweep(s, again.now).buckets)
    ensures Consume(c, s, again).1
  {
    hide Enumerates, Oldest, RetryAfter;
    var k, idle := again.key, again.now - then_;
    var b := Sweep(s, again.now).buckets;
    if k in b {
      if U32_MAX as real * c.rps >= 1000.0 {
        HintIsAToken(c);
        SameOrder(RetryAfter(c), idle, c.rps);
        assert b[k].tokens + idle * c.rps >= 1.0;
      } else {
        CutHintIsLong(c);
        assert false;
      }
    }
  }

  lemma AdmittedAfterWaiting(c: Config, s: State, call: Call, others: seq<Call>, again: Call)
    requires c.rps > 0.0 && c.burst >= 1.0 && Settled(c, s, call.now) && WaitsAsTold(c, s, call, others, again)
    ensures AdmittedAgain(c, s, call, others, again)
  {
    hide Consume, Sweep, Enumerates, Untouched, Settled, RetryAfter;
    RefusalLeaves(c, s, call);
    var t := Consume(c, s, call).0;
    RunLeaves(c, t, others, call.now, call.key, call.now);
    UntouchedIsAdmitted(c, Run(c, t, others, call.now), again, call.now);
  }

  /** A bucket too small for a token refuses for good, whatever the state. */
  lemma SmallBurstFails(c: Config, s: State, call: Call)
    requires c.burst < 1.0 && Enumerates(call.order, Sweep(s, call.now).buckets)
    ensures !Consume(c, s, call).1
  {
    hide Enumerates, Oldest, Sweep;
  }

  /** An enumeration of a table of at most one bucket. */
  function OnlyKey(b: Table, k: Key): seq<Key> {
    if k in b then [k] else []
  }

  lemma SmallBurstHint(c: Config, k: Key)
    requires c.burst < 1.0
    ensures !HintSuffices(c)
  {
    hide RetryAfter;
    var s, call := State(map[], 0.0), Call(0.0, k, []);
    var t := Consume(c, s, call).0;
    assert t.buckets.Keys == {k};
    var later := RetryAfter(c);
    var again := Call(later, k, OnlyKey(Sweep(t, later).buckets, k));
    assert forall j :: j in Sweep(t, later).buckets ==> j == k;
    SmallBurstFails(c, s, call);
    SmallBurstFails(c, t, again);
    assert WaitsAsTold(c, s, call, [], again) && !AdmittedAgain(c, s, call, [], again);
  }

  /**
   * No shorter hint would do: an empty bucket admits its source again after
   * `ms` milliseconds, idle less than a sweep needs, exactly if the hint is no longer.
   */
  lemma HintIsLeast(c: Config, k: Key, ms: nat)
    requires c.burst >= 1.0 && c.rps > 0.0 && 1 <= ms && ms as real / 1000.0 < IDLE_CUTOFF
    ensures Consume(c, One(k, 0.0, 0.0, 0.0), Call(ms as real / 1000.0, k, [k])).1 <==> RetryAfterMillis(c) <= ms
  {
    var s, t := One(k, 0.0, 0.0, 0.0), ms as real / 1000.0;
    assert k in Sweep(s, t).buckets && Sweep(s, t).buckets == s.buckets;
    assert Evicted(c, s.buckets, k, [k]) == None;
    assert Consume(c, s, Call(t, k, [k])).1 <==> t * c.rps >= 1.0;
    var q := 1000.0 / c.rps;
    assert q * c.rps == 1000.0;
    LeastMillis(c, ms, q);
    PerMillis(c.rps, ms as real, q);
  }

  lemma LeastMillis(c: Config, ms: nat, q: real)
    requires c.rps > 0.0 && 1 <= ms < U32_MAX && q == 1000.0 / c.rps
    ensures q <= ms as real <==> RetryAfterMillis(c) <= ms
  {
    hide Ceil;
    CeilIsLeast(q, ms);
  }

  lemma CeilIsLeast(q: real, ms: int)
    ensures q <= ms as real <==> Ceil(q) <= ms
  {
  }

  lemma PerMillis(rps: real, ms: real, q: real)
    requires rps > 0.0 && q * rps == 1000.0
    ensures ms / 1000.0 * rps >= 1.0 <==> q <= ms
  {
    SameOrder(q, ms, rps);
    assert ms == ms / 1000.0 * 1000.0;
    assert ms * rps == ms / 1000.0 * rps * 1000.0;
  }

  /** Without a positive rate the hint is a fixed second, after which what was short of a token still is. */
  lemma NoRateFails(c: Config, k: Key, f: real)
    requires c.burst >= 1.0 && c.rps <= 0.0 && 0.0 <= f < 1.0
    ensures var s, call, again := One(k, f, 0.0, 0.0), Call(0.0, k, [k]), Call(1.0, k, [k]);
            && RetryAfter(c) == 1.0 && Settled(c, s, 0.0)
            && WaitsAsTold(c, s, call, [], again) && !AdmittedAgain(c, s, call, [], again)
    ensures !HintSuffices(c)
  {
    var s, call, again := One(k, f, 0.0, 0.0), Call(0.0, k, [k]), Call(1.0, k, [k]);
    assert 0.0 * c.rps == 0.0 && 1.0 * c.rps == c.rps;
    assert Sweep(s, 0.0) == s && Evicted(c, s.buckets, k, [k]) == None;
    assert s.buckets[k := Bucket(f, 0.0)] == s.buckets;
    assert Consume(c, s, call) == (s, false);
    assert Sweep(s, 1.0) == s;
    assert !Consume(c, s, again).1;
    assert WaitsAsTold(c, s, call, [], again) && !AdmittedAgain(c, s, call, [], again);
  }

  // ---- the limiter as it is updated in place -----------------------------

  class RateLimiter {
    const rps: real
    const burst: real
    const maxTracked: nat
    var buckets: Table
    var lastSweep: real

    constructor (rps: real, burst: real, now: real)
      ensures Configured() == Config(rps, burst, 4096) && Now() == State(map[], now)
    {
      this.rps, this.burst, maxTracked := rps, burst, 4096;
      buckets, lastSweep := map[], now;
    }

    ghost function Configured(): Config {
      Config(rps, burst, maxTracked)
    }

    ghost function Now(): State
      reads this
    {
      State(buckets, lastSweep)
    }

    method MaybeSweep(now: real)
      modifies this
      ensures Now() == Sweep(old(Now()), now)
    {
      if Since(now, lastSweep) < SWEEP_INTERVAL {
        return;
      }
      lastSweep := now;
      buckets := map k | k in buckets && Since(now, buckets[k].last) < IDLE_CUTOFF :: buckets[k];
    }

    method MakeRoomFor(key: Key, order: seq<Key>)
      requires Enumerates(order, buckets)
      modifies this`buckets
      ensures buckets == MakeRoom(Configured(), old(buckets), key, order)
    {
      if |buckets| < maxTracked || key in buckets {
        return;
      }
      var sample := order[..Min(EVICT_SAMPLE, |order|)];
      if sample != [] {
        assert forall k :: k in sample ==> k in order;
        var oldest := FindOldest(sample);
        buckets := buckets - {oldest};
      }
    }

    method FindOldest(sample: seq<Key>) returns (oldest: Key)
      requires sample != [] && forall k :: k in sample ==> k in buckets
      ensures oldest == Oldest(buckets, sample)
    {
      oldest := sample[0];
      assert sample[..1][..0] == [];
      var i := 1;
      while i < |sample|
        invariant 1 <= i <= |sample|
        invariant oldest == Oldest(buckets, sample[..i])
      {
        assert sample[..i + 1][..i] == sample[..i];
        if buckets[sample[i]].last < buckets[oldest].last {
          oldest := sample[i];
        }
        i := i + 1;
      }
      assert sample[..i] == sample;
    }

    method Draw(key: Key, now: real) returns (ok: bool)
      modifies this`buckets
      ensures (buckets, ok) == Drawn(Configured(), old(buckets), key, now)
    {
      ghost var room := buckets;
      if key !in buckets {
        buckets := buckets[key := Bucket(burst, now)];
        assert 0.0 * rps == 0.0;
      }
      var bucket := buckets[key];
      var tokens := MinR(bucket.tokens + Since(now, bucket.last) * rps, burst);
      assert tokens == Tokens(Configured(), room, key, now);
      if tokens >= 1.0 {
        buckets := buckets[key := Bucket(tokens - 1.0, now)];
        assert buckets == room[key := Bucket(tokens - 1.0, now)];
        ok := true;
      } else {
        buckets := buckets[key := Bucket(tokens, now)];
        assert buckets == room[key := Bucket(tokens, now)];
        ok := false;
      }
    }

    method TryConsume(ip: IpAddr, now: real, order: seq<Key>) returns (ok: bool)
      requires ValidIp(ip) && Enumerates(order, Sweep(Now(), now).buckets)
      modifies this
      ensures (Now(), ok) == Consume(Configured(), old(Now()), Call(now, BucketKey(ip), order))
    {
      hide Sweep, MakeRoom, Enumerates, Drawn;
      var key := BucketKey(ip);
      MaybeSweep(now);
      MakeRoomFor(key, order);
      ok := Draw(key, now);
    }
  }
}
