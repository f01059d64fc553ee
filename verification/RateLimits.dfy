/**
 Fixed-window rate limiting: buckets in memory with a sweep, an aligned shared
 counter that falls back to them, and the two-window budget of the public form.
 */
module RateLimits {
  import opened Values

  datatype Bucket = Bucket(count: nat, resetAt: int)

  datatype Verdict = Verdict(ok: bool, limit: int, remaining: int, resetAt: int, retryAfter: int, shared: bool)

  /** What the shared counter does for one call: it answers, it fails (before or after counting), or there is none. */
  datatype Availability = Up | Down(counted: bool) | Absent

  datatype Call = Call(key: string, limit: int, seconds: int, now: int, shared: Availability)

  /** The buckets of this process, and the counts the processes share, by key and window. */
  datatype Counters = Counters(buckets: map<string, Bucket>, shared: map<(string, int), nat>)

  const SWEEP_ABOVE := 5000

  function Max(a: int, b: int): int {
    if a > b then a else b
  }

  /** `Math.ceil(ms / 1000)`, at least one. */
  function RetryAfter(ms: int): int {
    Max(1, CeilSeconds(ms))
  }

  /** The least number of whole seconds that covers the milliseconds. */
  function CeilSeconds(ms: int): (s: int)
    ensures (s - 1) * 1000 < ms <= s * 1000
  {
    -(-ms / 1000)
  }

  // ------------------------------------------------------- one call, locally

  function BucketFor(buckets: map<string, Bucket>, key: string, window: int, now: int): Bucket {
    if key in buckets && buckets[key].resetAt > now then buckets[key] else Bucket(0, now + window)
  }

  function Swept(buckets: map<string, Bucket>, now: int): map<string, Bucket> {
    map k | k in buckets && buckets[k].resetAt > now :: buckets[k]
  }

  function Counted(buckets: map<string, Bucket>, key: string, window: int, now: int): map<string, Bucket> {
    var b := BucketFor(buckets, key, window, now);
    buckets[key := b.(count := b.count + 1)]
  }

  function LocalVerdict(b: Bucket, limit: int, now: int): Verdict {
    Verdict(b.count <= limit, limit, Max(0, limit - b.count), b.resetAt, RetryAfter(b.resetAt - now), false)
  }

  function TakeLocal(buckets: map<string, Bucket>, key: string, limit: int, window: int, now: int)
    : (map<string, Bucket>, Verdict)
  {
    var after := Counted(buckets, key, window, now);
    (if |after| > SWEEP_ABOVE then Swept(after, now) else after, LocalVerdict(after[key], limit, now))
  }

  // --------------------------------------------------- one call, shared first

  function WindowOf(call: Call): int
    requires call.seconds > 0
  {
    call.now / (call.seconds * 1000)
  }

  function CountOf(shared: map<(string, int), nat>, at: (string, int)): nat {
    if at in shared then shared[at] else 0
  }

  function Increment(shared: map<(string, int), nat>, at: (string, int)): map<(string, int), nat> {
    shared[at := CountOf(shared, at) + 1]
  }

  function Take(c: Counters, call: Call): (Counters, Verdict)
    requires call.seconds > 0
  {
    var at := (call.key, WindowOf(call));
    if call.shared.Up? then
      var count := CountOf(c.shared, at) + 1;
      var resetAt := (at.1 + 1) * call.seconds * 1000;
      (c.(shared := Increment(c.shared, at)),
       Verdict(count <= call.limit, call.limit, Max(0, call.limit - count), resetAt, RetryAfter(resetAt - call.now), true))
    else
      var (buckets, verdict) := TakeLocal(c.buckets, call.key, call.limit, call.seconds * 1000, call.now);
      (Counters(buckets, if call.shared == Down(true) then Increment(c.shared, at) else c.shared), verdict)
  }

  // ------------------------------------------------------- the public budget

  datatype IntakeLimit = IntakeLimit(scope: string, perMinute: int, perHour: Option<int>)

  datatype Intake = Intake(
    caller: string, process: string, limit: IntakeLimit, now: int, minute: Availability, hour: Availability)

  function Tighter(a: Verdict, b: Option<Verdict>): Verdict {
    if b.None? then a
    else if !a.ok then a
    else if !b.value.ok then b.value
    else if a.remaining <= b.value.remaining then a
    else b.value
  }

  function MinuteCall(r: Intake): Call {
    Call("intake:" + r.limit.scope + ":" + r.process + ":" + r.caller, r.limit.perMinute, 60, r.now, r.minute)
  }

  /** The slower window, where one is set. */
  function HourCall(r: Intake): Option<Call> {
    if r.limit.perHour.Some? && r.limit.perHour.value != 0 then
      Some(Call("intake:" + r.limit.scope + ":h:" + r.process + ":" + r.caller, r.limit.perHour.value, 3600, r.now, r.hour))
    else None
  }

  function TakeIntake(c: Counters, r: Intake): (Counters, Verdict) {
    var (c1, minute) := Take(c, MinuteCall(r));
    match HourCall(r)
    case None => (c1, minute)
    case Some(call) =>
      var (c2, hour) := Take(c1, call);
      (c2, Tighter(minute, Some(hour)))
  }

  // ------------------------------------------------------------ the limiter

  class Limiter {
    var buckets: map<string, Bucket>
    var shared: map<(string, int), nat>

    constructor ()
      ensures State() == Counters(map[], map[])
    {
      buckets, shared := map[], map[];
    }

    function State(): Counters
      reads this
    {
      Counters(buckets, shared)
    }

    method TakeRateToken(key: string, limit: int, window: int, now: int) returns (verdict: Verdict)
      modifies this`buckets
      ensures (buckets, verdict) == TakeLocal(old(buckets), key, limit, window, now)
    {
      var bucket := Bucket(0, now + window);
      if key in buckets && buckets[key].resetAt > now {
        bucket := buckets[key];
      }
      bucket := bucket.(count := bucket.count + 1);
      buckets := buckets[key := bucket];
      if |buckets| > 5000 {
        Sweep(now);
      }
      verdict := Verdict(bucket.count <= limit, limit, Max(0, limit - bucket.count), bucket.resetAt,
                         Max(1, CeilSeconds(bucket.resetAt - now)), false);
    }

    /** Deletes the buckets whose window is over, one by one. */
    method Sweep(now: int)
      modifies this`buckets
      ensures buckets == Swept(old(buckets), now)
    {
      var todo := buckets.Keys;
      while todo != {}
        invariant todo <= buckets.Keys <= old(buckets).Keys
        invariant forall k :: k in buckets ==> buckets[k] == old(buckets)[k]
        invariant forall k :: k in old(buckets) && k !in todo ==> (k in buckets <==> old(buckets)[k].resetAt > now)
        decreases todo
      {
        var k :| k in todo;
        todo := todo - {k};
        if buckets[k].resetAt <= now {
          buckets := buckets - {k};
        }
      }
    }

    method TakeRateTokenShared(call: Call) returns (verdict: Verdict)
      requires call.seconds > 0
      modifies this
      ensures (State(), verdict) == Take(old(State()), call)
    {
      if call.shared.Absent? {
        verdict := TakeRateToken(call.key, call.limit, call.seconds * 1000, call.now);
        return;
      }
      var window := call.now / (call.seconds * 1000);
      var resetAt := (window + 1) * call.seconds * 1000;
      if call.shared.Up? || call.shared.counted {
        shared := Increment(shared, (call.key, window));
      }
      if call.shared.Up? {
        var count := shared[(call.key, window)];
        verdict := Verdict(count <= call.limit, call.limit, Max(0, call.limit - count), resetAt,
                           Max(1, CeilSeconds(resetAt - call.now)), true);
      } else {
        verdict := TakeRateToken(call.key, call.limit, call.seconds * 1000, call.now);
      }
    }

    /** Spends from both windows, whichever refuses. */
    method TakeIntakeToken(r: Intake) returns (verdict: Verdict)
      modifies this
      ensures (State(), verdict) == TakeIntake(old(State()), r)
    {
      var minute := TakeRateTokenShared(
        Call("intake:" + r.limit.scope + ":" + r.process + ":" + r.caller, r.limit.perMinute, 60, r.now, r.minute));
      verdict := minute;
      if r.limit.perHour.Some? && r.limit.perHour.value != 0 {
        var hour := TakeRateTokenShared(
          Call("intake:" + r.limit.scope + ":h:" + r.process + ":" + r.caller, r.limit.perHour.value, 3600, r.now, r.hour));
        if minute.ok && (!hour.ok || hour.remaining < minute.remaining) {
          verdict := hour;
        }
      }
    }
  }

  // ------------------------------------------------------------- call traces

  predicate Ordered(calls: seq<Call>) {
    && (forall i :: 0 <= i < |calls| ==> calls[i].seconds > 0)
    && (forall i, j :: 0 <= i < j < |calls| ==> calls[i].now <= calls[j].now)
  }

  /** The key's budget is the same in every call of the trace. */
  predicate Fixed(calls: seq<Call>, key: string, limit: int, seconds: int) {
    forall i :: 0 <= i < |calls| && calls[i].key == key ==> calls[i].limit == limit && calls[i].seconds == seconds
  }

  /** The calls for `key` accepted within `[from, from + seconds)`, by the shared counter or not. */
  function Accepted(c: Counters, calls: seq<Call>, key: string, from: int, seconds: int, byShared: bool): nat
    requires Ordered(calls)
    decreases calls
  {
    if calls == [] then 0
    else
      var (after, verdict) := Take(c, calls[0]);
      var rest := Accepted(after, calls[1..], key, from, seconds, byShared);
      if calls[0].key == key && verdict.ok && verdict.shared == byShared && from <= calls[0].now < from + seconds * 1000
      then 1 + rest else rest
  }

  // ------------------------------------------------------ eviction invisible

  /** `evicted` lost at most buckets of `kept` whose window was over. */
  ghost predicate OnlyDead(evicted: map<string, Bucket>, kept: map<string, Bucket>, now: int) {
    && (forall k :: k in evicted ==> k in kept && kept[k] == evicted[k])
    && (forall k :: k in kept && kept[k].resetAt > now ==> k in evicted)
  }

  /** A limiter that never deletes a bucket. */
  function TakeKeeping(buckets: map<string, Bucket>, call: Call): (map<string, Bucket>, Verdict) {
    var after := Counted(buckets, call.key, call.seconds * 1000, call.now);
    (after, LocalVerdict(after[call.key], call.limit, call.now))
  }

  function Verdicts(buckets: map<string, Bucket>, calls: seq<Call>): seq<Verdict>
    decreases calls
  {
    if calls == [] then []
    else
      var (after, v) := TakeLocal(buckets, calls[0].key, calls[0].limit, calls[0].seconds * 1000, calls[0].now);
      [v] + Verdicts(after, calls[1..])
  }

  function VerdictsKeeping(buckets: map<string, Bucket>, calls: seq<Call>): seq<Verdict>
    decreases calls
  {
    if calls == [] then []
    else
      var (after, v) := TakeKeeping(buckets, calls[0]);
      [v] + VerdictsKeeping(after, calls[1..])
  }

  lemma TakeIgnoresDead(evicted: map<string, Bucket>, kept: map<string, Bucket>, call: Call, before: int)
    requires OnlyDead(evicted, kept, before) && before <= call.now
    ensures var ((a, v), (b, w)) :=
              (TakeLocal(evicted, call.key, call.limit, call.seconds * 1000, call.now), TakeKeeping(kept, call));
            v == w && OnlyDead(a, b, call.now)
  {
  }

  /** Over any trace with a forward clock the sweep changes no verdict, whatever the windows. */
  lemma {:induction false} EvictionIsInvisible(
      evicted: map<string, Bucket>, kept: map<string, Bucket>, calls: seq<Call>, before: int)
    requires OnlyDead(evicted, kept, before)
    requires forall i, j :: 0 <= i < j < |calls| ==> calls[i].now <= calls[j].now
    requires calls != [] ==> before <= calls[0].now
    ensures Verdicts(evicted, calls) == VerdictsKeeping(kept, calls)
    decreases |calls|
  {
    hide OnlyDead, TakeLocal, TakeKeeping;
    if calls != [] {
      TakeIgnoresDead(evicted, kept, calls[0], before);
      EvictionIsInvisible(TakeLocal(evicted, calls[0].key, calls[0].limit, calls[0].seconds * 1000, calls[0].now).0,
                          TakeKeeping(kept, calls[0]).0, calls[1..], calls[0].now);
    }
  }

  // ------------------------------------------------------------ local bounds

  /** What one call does to one key's bucket, for a caller whose clock has not gone back. */
  predicate Carries(buckets: map<string, Bucket>, after: map<string, Bucket>, key: string, now: int) {
    && (key in after && after[key].resetAt > now ==> key in buckets && buckets[key] == after[key])
    && (key in buckets && buckets[key].resetAt > now ==> key in after && after[key] == buckets[key])
  }

  lemma OtherKeyCarries(c: Counters, call: Call, key: string)
    requires call.seconds > 0 && (call.key != key || call.shared.Up?)
    ensures Carries(c.buckets, Take(c, call).0.buckets, key, call.now)
  {
  }

  function Left(b: Bucket, limit: int): nat {
    if b.count < limit then limit - b.count else 0
  }

  /** A bucket that outlives the interval bounds what the interval still accepts. */
  lemma {:induction false} CoveredBound(
      c: Counters, calls: seq<Call>, key: string, limit: int, seconds: int, from: int, b: Bucket)
    requires Ordered(calls) && Fixed(calls, key, limit, seconds) && seconds > 0
    requires calls != [] && calls[0].now < from + seconds * 1000 ==> key in c.buckets && c.buckets[key] == b
    requires b.resetAt >= from + seconds * 1000
    ensures Accepted(c, calls, key, from, seconds, false) <= Left(b, limit)
    decreases |calls|
  {
    hide TakeLocal;
    if calls != [] {
      var call := calls[0];
      TakesOne(c, call, key, limit, seconds);
      var after := Take(c, call).0;
      if call.now >= from + seconds * 1000 {
        NothingLate(c, calls, key, from, seconds, false);
      } else if call.key == key && !call.shared.Up? {
        CoveredBound(after, calls[1..], key, limit, seconds, from, b.(count := b.count + 1));
      } else {
        OtherKeyCarries(c, call, key);
        CoveredBound(after, calls[1..], key, limit, seconds, from, b);
      }
    }
  }

  /** What a local call for the key does to its bucket, while windows are positive. */
  lemma TakesOne(c: Counters, call: Call, key: string, limit: int, seconds: int)
    requires call.seconds > 0
    ensures call.key == key && !call.shared.Up? && call.limit == limit && call.seconds == seconds ==>
              var b := BucketFor(c.buckets, key, seconds * 1000, call.now);
              var (after, v) := Take(c, call);
              && key in after.buckets && after.buckets[key] == b.(count := b.count + 1)
              && v.ok == (b.count + 1 <= limit) && !v.shared
    ensures call.shared.Up? ==> Take(c, call).1.shared && Take(c, call).0.buckets == c.buckets
  {
  }

  lemma {:induction false} NothingLate(c: Counters, calls: seq<Call>, key: string, from: int, seconds: int, byShared: bool)
    requires Ordered(calls) && (calls != [] ==> calls[0].now >= from + seconds * 1000)
    ensures Accepted(c, calls, key, from, seconds, byShared) == 0
    decreases |calls|
  {
    hide Take;
    if calls != [] {
      NothingLate(Take(c, calls[0]).0, calls[1..], key, from, seconds, byShared);
    }
  }

  /** Inside the interval: what is left in the current bucket, then at most one more. */
  lemma {:induction false} InsideBound(
      c: Counters, calls: seq<Call>, key: string, limit: int, seconds: int, from: int, left: nat)
    requires Ordered(calls) && Fixed(calls, key, limit, seconds) && seconds > 0
    requires calls != [] ==> calls[0].now >= from
    requires calls != [] && key in c.buckets && c.buckets[key].resetAt > calls[0].now ==> Left(c.buckets[key], limit) <= left
    ensures Accepted(c, calls, key, from, seconds, false) <= left + Max(0, limit)
    decreases |calls|
  {
    hide TakeLocal;
    if calls != [] {
      var call := calls[0];
      TakesOne(c, call, key, limit, seconds);
      var after := Take(c, call).0;
      if call.key == key && !call.shared.Up? {
        if key in c.buckets && c.buckets[key].resetAt > call.now {
          InsideBound(after, calls[1..], key, limit, seconds, from, if left > 0 then left - 1 else 0);
        } else {
          CoveredBound(after, calls[1..], key, limit, seconds, from, Bucket(1, call.now + seconds * 1000));
        }
      } else {
        OtherKeyCarries(c, call, key);
        InsideBound(after, calls[1..], key, limit, seconds, from, left);
      }
    }
  }

  /** Every bucket was opened by a call, as it is when the first one was made. */
  predicate Opened(c: Counters) {
    forall k :: k in c.buckets ==> c.buckets[k].count > 0
  }

  lemma StaysOpened(c: Counters, call: Call)
    requires call.seconds > 0 && Opened(c)
    ensures Opened(Take(c, call).0)
  {
  }

  /** The buckets alone accept less than twice the limit in any interval one window long, if they were opened by calls. */
  lemma {:induction false} LocalBound(
      c: Counters, calls: seq<Call>, key: string, limit: int, seconds: int, from: int)
    requires Ordered(calls) && Fixed(calls, key, limit, seconds) && seconds > 0
    ensures Accepted(c, calls, key, from, seconds, false) <= 2 * Max(0, limit)
    ensures Opened(c) ==> Accepted(c, calls, key, from, seconds, false) <= Max(0, 2 * limit - 1)
    decreases |calls|
  {
    hide Take;
    if calls != [] {
      if calls[0].now >= from {
        InsideBound(c, calls, key, limit, seconds, from, Max(0, limit));
        if Opened(c) {
          InsideBound(c, calls, key, limit, seconds, from, Max(0, limit - 1));
        }
      } else {
        if Opened(c) {
          StaysOpened(c, calls[0]);
        }
        LocalBound(Take(c, calls[0]).0, calls[1..], key, limit, seconds, from);
      }
    }
  }

  // ----------------------------------------------------------- shared bounds

  /** What the shared counter still accepts in one of its windows. */
  function SharedLeft(c: Counters, key: string, limit: int, window: int): nat {
    var count := CountOf(c.shared, (key, window));
    if count < limit then limit - count else 0
  }

  lemma TakesShared(c: Counters, call: Call, key: string, limit: int, seconds: int)
    requires call.seconds > 0 && seconds > 0
    requires call.key == key ==> call.limit == limit && call.seconds == seconds
    ensures var (after, v) := Take(c, call);
            && (forall w :: SharedLeft(after, key, limit, w) <= SharedLeft(c, key, limit, w))
            && (call.key == key && v.shared && v.ok ==>
                  SharedLeft(c, key, limit, WindowOf(call)) > 0
                  && SharedLeft(after, key, limit, WindowOf(call)) < SharedLeft(c, key, limit, WindowOf(call)))
  {
    hide TakeLocal;
    VerdictSource(c, call);
  }

  /** An interval one window long meets at most two aligned windows. */
  lemma TwoWindows(now: int, from: int, length: int)
    requires length > 0 && from <= now < from + length
    ensures now / length == from / length || now / length == from / length + 1
  {
    var (q, r) := (from / length, from % length);
    assert from == q * length + r;
    if now < q * length + length {
      DivIs(now, length, q);
    } else {
      DivIs(now, length, q + 1);
    }
  }

  lemma TimesLarge(d: int, length: int)
    requires length > 0
    ensures d >= 1 ==> d * length >= length
    ensures d <= -1 ==> d * length <= -length
  {
    if d >= 1 {
      assert (d - 1) * length >= 0;
    } else if d <= -1 {
      assert (d + 1) * length <= 0;
    }
  }

  lemma DivIs(n: int, length: int, q: int)
    requires length > 0 && q * length <= n < q * length + length
    ensures n / length == q
  {
    var d := n / length - q;
    assert n == (n / length) * length + n % length;
    assert n - q * length == d * length + n % length;
    TimesLarge(d, length);
  }

  /** The shared counter alone accepts at most twice the limit in any interval one window long. */
  lemma {:induction false} SharedBound(
      c: Counters, calls: seq<Call>, key: string, limit: int, seconds: int, from: int)
    requires Ordered(calls) && Fixed(calls, key, limit, seconds) && seconds > 0
    ensures var w := from / (seconds * 1000);
            Accepted(c, calls, key, from, seconds, true)
            <= SharedLeft(c, key, limit, w) + SharedLeft(c, key, limit, w + 1)
    decreases |calls|
  {
    hide Take, SharedLeft;
    if calls != [] {
      var call := calls[0];
      var w := from / (seconds * 1000);
      TakesShared(c, call, key, limit, seconds);
      SharedBound(Take(c, call).0, calls[1..], key, limit, seconds, from);
      if call.key == key && from <= call.now < from + seconds * 1000 {
        TwoWindows(call.now, from, seconds * 1000);
      }
    }
  }

  /**
   In any interval one window long at most twice the limit by either counter alone, one
   less by the buckets, and at most four times it, less one, when the shared counter
   fails and recovers arbitrarily.
   */
  lemma RateIsBounded(c: Counters, calls: seq<Call>, key: string, limit: int, seconds: int, from: int)
    requires Ordered(calls) && Fixed(calls, key, limit, seconds) && seconds > 0
    ensures Accepted(c, calls, key, from, seconds, false) <= 2 * Max(0, limit)
    ensures Accepted(c, calls, key, from, seconds, true) <= 2 * Max(0, limit)
    ensures Accepted(c, calls, key, from, seconds, false) + Accepted(c, calls, key, from, seconds, true) <= 4 * Max(0, limit)
    ensures Opened(c) ==>
              && Accepted(c, calls, key, from, seconds, false) <= Max(0, 2 * limit - 1)
              && Accepted(c, calls, key, from, seconds, false) + Accepted(c, calls, key, from, seconds, true)
                 <= Max(0, 4 * limit - 1)
  {
    LocalBound(c, calls, key, limit, seconds, from);
    SharedBound(c, calls, key, limit, seconds, from);
  }

  // ------------------------------------------------- the bounds are attained

  function Block(key: string, limit: int, seconds: int, now: int, shared: Availability, n: nat): (calls: seq<Call>)
    ensures |calls| == n
  {
    seq(n, _ => Call(key, limit, seconds, now, shared))
  }

  lemma BlockFirst(key: string, limit: int, seconds: int, now: int, shared: Availability, n: nat, rest: seq<Call>)
    ensures Block(key, limit, seconds, now, shared, 0) + rest == rest
    ensures n > 0 ==> Block(key, limit, seconds, now, shared, n) + rest
                      == [Call(key, limit, seconds, now, shared)] + (Block(key, limit, seconds, now, shared, n - 1) + rest)
  {
  }

  lemma AcceptedFirst(c: Counters, call: Call, rest: seq<Call>, key: string, from: int, seconds: int, byShared: bool)
    requires call.seconds > 0 && Ordered([call] + rest) && Ordered(rest)
    ensures Accepted(c, [call] + rest, key, from, seconds, byShared)
            == Accepted(Take(c, call).0, rest, key, from, seconds, byShared)
               + if call.key == key && Take(c, call).1.ok && Take(c, call).1.shared == byShared
                    && from <= call.now < from + seconds * 1000 then 1 else 0
  {
    hide Take, Ordered;
    assert ([call] + rest)[0] == call && ([call] + rest)[1..] == rest;
  }

  /** In order, for the one key, and not before `now`. */
  predicate Tidy(calls: seq<Call>, key: string, limit: int, seconds: int, now: int) {
    && Ordered(calls)
    && forall i :: 0 <= i < |calls| ==> calls[i].limit == limit && calls[i].seconds == seconds && calls[i].now >= now
  }

  lemma BlockTidy(key: string, limit: int, seconds: int, now: int, shared: Availability, n: nat, rest: seq<Call>)
    requires seconds > 0 && Tidy(rest, key, limit, seconds, now)
    ensures Tidy(Block(key, limit, seconds, now, shared, n) + rest, key, limit, seconds, now)
  {
  }

  /** The counters when only the one key was used. */
  function Single(key: string, b: Bucket, shared: map<(string, int), nat>): Counters {
    Counters(map[key := b], shared)
  }

  /** A call for the one key, in its open bucket or opening a new one. */
  lemma TakeSingle(c: Counters, key: string, limit: int, seconds: int, now: int)
    requires seconds > 0 && c.buckets.Keys <= {key}
    ensures var (b, (after, v)) := (BucketFor(c.buckets, key, seconds * 1000, now), Take(c, Call(key, limit, seconds, now, Absent)));
            && after == Single(key, b.(count := b.count + 1), c.shared)
            && v.ok == (b.count + 1 <= limit) && !v.shared
  {
    var b := BucketFor(c.buckets, key, seconds * 1000, now);
    var buckets := map[key := b.(count := b.count + 1)];
    assert c.buckets[key := b.(count := b.count + 1)] == buckets;
    assert |buckets| == 1;
  }

  lemma {:induction false} LocalBlock(
      key: string, limit: int, seconds: int, now: int, n: nat, b: Bucket, shared: map<(string, int), nat>,
      rest: seq<Call>, from: int, byShared: bool)
    requires seconds > 0 && b.resetAt > now && b.count + n <= limit && Tidy(rest, key, limit, seconds, now)
    ensures Tidy(Block(key, limit, seconds, now, Absent, n) + rest, key, limit, seconds, now)
    ensures Accepted(Single(key, b, shared), Block(key, limit, seconds, now, Absent, n) + rest, key, from, seconds, byShared)
            == (if !byShared && from <= now < from + seconds * 1000 then n else 0)
               + Accepted(Single(key, b.(count := b.count + n), shared), rest, key, from, seconds, byShared)
  {
    hide Accepted, Take, Ordered, Block;
    BlockTidy(key, limit, seconds, now, Absent, n, rest);
    BlockFirst(key, limit, seconds, now, Absent, n, rest);
    if n > 0 {
      LocalBlock(key, limit, seconds, now, n - 1, b.(count := b.count + 1), shared, rest, from, byShared);
      TakeSingle(Single(key, b, shared), key, limit, seconds, now);
      AcceptedFirst(Single(key, b, shared), Call(key, limit, seconds, now, Absent),
                    Block(key, limit, seconds, now, Absent, n - 1) + rest, key, from, seconds, byShared);
    }
  }

  lemma {:induction false} SharedBlock(
      key: string, limit: int, seconds: int, now: int, n: nat, b: Bucket, shared: map<(string, int), nat>,
      rest: seq<Call>, from: int, byShared: bool)
    requires seconds > 0 && n > 0 && Tidy(rest, key, limit, seconds, now)
    requires CountOf(shared, (key, now / (seconds * 1000))) + n <= limit
    ensures Tidy(Block(key, limit, seconds, now, Up, n) + rest, key, limit, seconds, now)
    ensures var at := (key, now / (seconds * 1000));
            Accepted(Single(key, b, shared), Block(key, limit, seconds, now, Up, n) + rest, key, from, seconds, byShared)
            == (if byShared && from <= now < from + seconds * 1000 then n else 0)
               + Accepted(Single(key, b, shared[at := CountOf(shared, at) + n]), rest, key, from, seconds, byShared)
  {
    hide Accepted, Ordered, Block, TakeLocal;
    BlockTidy(key, limit, seconds, now, Up, n, rest);
    BlockFirst(key, limit, seconds, now, Up, n, rest);
    BlockTidy(key, limit, seconds, now, Up, n - 1, rest);
    var at := (key, now / (seconds * 1000));
    var once := shared[at := CountOf(shared, at) + 1];
    AcceptedFirst(Single(key, b, shared), Call(key, limit, seconds, now, Up),
                  Block(key, limit, seconds, now, Up, n - 1) + rest, key, from, seconds, byShared);
    if n > 1 {
      SharedBlock(key, limit, seconds, now, n - 1, b, once, rest, from, byShared);
      assert once[at := CountOf(once, at) + (n - 1)] == shared[at := CountOf(shared, at) + n];
    }
  }

  /** A call that opens a bucket, the old one being over or there being none. */
  lemma OpeningCall(
      key: string, limit: int, seconds: int, now: int, c: Counters, rest: seq<Call>, from: int, byShared: bool)
    requires seconds > 0 && limit > 0 && Tidy(rest, key, limit, seconds, now)
    requires c.buckets.Keys <= {key} && (key in c.buckets ==> c.buckets[key].resetAt <= now)
    ensures Tidy(Block(key, limit, seconds, now, Absent, 1) + rest, key, limit, seconds, now)
    ensures Accepted(c, Block(key, limit, seconds, now, Absent, 1) + rest, key, from, seconds, byShared)
            == (if !byShared && from <= now < from + seconds * 1000 then 1 else 0)
               + Accepted(Single(key, Bucket(1, now + seconds * 1000), c.shared), rest, key, from, seconds, byShared)
  {
    hide Accepted, Take, Ordered, Block;
    BlockTidy(key, limit, seconds, now, Absent, 1, rest);
    BlockFirst(key, limit, seconds, now, Absent, 1, rest);
    TakeSingle(c, key, limit, seconds, now);
    AcceptedFirst(c, Call(key, limit, seconds, now, Absent), rest, key, from, seconds, byShared);
  }

  /** A bucket opened long before the interval, used up at its very end, and both counters again right after. */
  function Rush(key: string, limit: nat, seconds: nat): seq<Call>
    requires limit > 0 && seconds > 0
  {
    var end := seconds * 1000;
    Block(key, limit, seconds, 0, Absent, 1)
    + (Block(key, limit, seconds, end - 1, Absent, limit - 1)
       + (Block(key, limit, seconds, end - 1, Up, limit)
          + (Block(key, limit, seconds, end, Absent, 1)
             + (Block(key, limit, seconds, end, Absent, limit - 1)
                + (Block(key, limit, seconds, end, Up, limit) + [])))))
  }

  /** The bounds cannot be lowered: one trace from the start attains them all. */
  lemma RateIsAttained(key: string, limit: nat, seconds: nat)
    requires limit > 0 && seconds > 0
    ensures var calls := Rush(key, limit, seconds);
            && Ordered(calls) && Fixed(calls, key, limit, seconds)
            && Accepted(Counters(map[], map[]), calls, key, 1, seconds, false) == 2 * limit - 1
            && Accepted(Counters(map[], map[]), calls, key, 1, seconds, true) == 2 * limit
  {
    RushAccepts(key, limit, seconds, false);
    RushAccepts(key, limit, seconds, true);
  }

  lemma RushAccepts(key: string, limit: nat, seconds: nat, byShared: bool)
    requires limit > 0 && seconds > 0
    ensures var calls := Rush(key, limit, seconds);
            && Tidy(calls, key, limit, seconds, 0)
            && Accepted(Counters(map[], map[]), calls, key, 1, seconds, byShared) == if byShared then 2 * limit else 2 * limit - 1
  {
    hide Accepted, Block, Tidy;
    var end := seconds * 1000;
    DivIs(end - 1, end, 0);
    DivIs(end, end, 1);
    var none: map<(string, int), nat> := map[];
    var first := none[(key, 0) := limit];
    var (early, late) := (Bucket(1, end), Bucket(1, end + end));
    assert Tidy([], key, limit, seconds, end) by { NothingTidy(key, limit, seconds, end); }
    SharedBlock(key, limit, seconds, end, limit, late.(count := limit), first, [], 1, byShared);
    var d := Block(key, limit, seconds, end, Up, limit) + [];
    LocalBlock(key, limit, seconds, end, limit - 1, late, first, d, 1, byShared);
    var e := Block(key, limit, seconds, end, Absent, limit - 1) + d;
    OpeningCall(key, limit, seconds, end, Single(key, early.(count := limit), first), e, 1, byShared);
    var f := Block(key, limit, seconds, end, Absent, 1) + e;
    Earlier(f, key, limit, seconds, end, end - 1);
    SharedBlock(key, limit, seconds, end - 1, limit, early.(count := limit), none, f, 1, byShared);
    var g := Block(key, limit, seconds, end - 1, Up, limit) + f;
    LocalBlock(key, limit, seconds, end - 1, limit - 1, early, none, g, 1, byShared);
    var h := Block(key, limit, seconds, end - 1, Absent, limit - 1) + g;
    Earlier(h, key, limit, seconds, end - 1, 0);
    OpeningCall(key, limit, seconds, 0, Counters(map[], map[]), h, 1, byShared);
    NothingAccepted(Single(key, late.(count := limit), first[(key, 1) := limit]), key, 1, seconds, byShared);
  }

  lemma NothingTidy(key: string, limit: int, seconds: int, now: int)
    ensures Tidy([], key, limit, seconds, now)
  {
  }

  lemma NothingAccepted(c: Counters, key: string, from: int, seconds: int, byShared: bool)
    ensures Accepted(c, [], key, from, seconds, byShared) == 0
  {
  }

  lemma Earlier(calls: seq<Call>, key: string, limit: int, seconds: int, now: int, before: int)
    requires Tidy(calls, key, limit, seconds, now) && before <= now
    ensures Tidy(calls, key, limit, seconds, before)
  {
  }

  /** A counter that is never asked, or never fails, leaves the other out. */
  lemma {:induction false} OneCounter(c: Counters, calls: seq<Call>, key: string, seconds: int, from: int)
    requires Ordered(calls)
    ensures (forall call :: call in calls ==> !call.shared.Up?) ==> Accepted(c, calls, key, from, seconds, true) == 0
    ensures (forall call :: call in calls ==> call.shared.Up?) ==> Accepted(c, calls, key, from, seconds, false) == 0
    decreases |calls|
  {
    hide TakeLocal;
    if calls != [] {
      OneCounter(Take(c, calls[0]).0, calls[1..], key, seconds, from);
      assert calls[0] in calls;
      VerdictSource(c, calls[0]);
    }
  }

  lemma VerdictSource(c: Counters, call: Call)
    requires call.seconds > 0
    ensures Take(c, call).1.shared <==> call.shared.Up?
  {
  }

  // ---------------------------------------------------------- intake bounds

  /**
   What a caller is told: whether it is within the limit, how many calls are left, when the window is over, and
   the seconds until then, at least one.
   */
  lemma VerdictExactly(c: Counters, call: Call)
    requires call.seconds > 0
    ensures var ((after, v), window) := (Take(c, call), call.seconds * 1000);
            && v.limit == call.limit
            && (v.ok ==> v.remaining >= 0) && (!v.ok ==> v.remaining == 0)
            && v.resetAt > call.now && v.retryAfter >= 1
            && (v.retryAfter - 1) * 1000 < v.resetAt - call.now <= v.retryAfter * 1000
            && (call.shared.Up? ==>
                  var at := (call.key, call.now / window);
                  && at in after.shared && after.shared[at] == 1 + (if at in c.shared then c.shared[at] else 0)
                  && (v.ok <==> after.shared[at] <= call.limit)
                  && (v.ok ==> v.remaining == call.limit - after.shared[at])
                  && v.resetAt % window == 0 && v.resetAt - window <= call.now)
            && (!call.shared.Up? ==>
                  var open := call.key in c.buckets && c.buckets[call.key].resetAt > call.now;
                  var count := 1 + if open then c.buckets[call.key].count else 0;
                  && (v.ok <==> count <= call.limit)
                  && (v.ok ==> v.remaining == call.limit - count)
                  && v.resetAt == if open then c.buckets[call.key].resetAt else call.now + window)
  {
    hide Take;
    if call.shared.Up? {
      WindowHolds(call.now, call.seconds * 1000);
      SharedTake(c, call);
    } else {
      LocalTake(c, call);
    }
  }

  lemma SharedTake(c: Counters, call: Call)
    requires call.seconds > 0 && call.shared.Up?
    ensures var at := (call.key, call.now / (call.seconds * 1000));
            var count := 1 + if at in c.shared then c.shared[at] else 0;
            var resetAt := (call.now / (call.seconds * 1000) + 1) * (call.seconds * 1000);
            && Take(c, call).0.shared == c.shared[at := count]
            && Take(c, call).1 == Verdict(count <= call.limit, call.limit, Max(0, call.limit - count), resetAt,
                                          Max(1, CeilSeconds(resetAt - call.now)), true)
  {
    hide TakeLocal;
  }

  lemma LocalTake(c: Counters, call: Call)
    requires call.seconds > 0 && !call.shared.Up?
    ensures var open := call.key in c.buckets && c.buckets[call.key].resetAt > call.now;
            var count := 1 + if open then c.buckets[call.key].count else 0;
            var resetAt := if open then c.buckets[call.key].resetAt else call.now + call.seconds * 1000;
            Take(c, call).1 == Verdict(count <= call.limit, call.limit, Max(0, call.limit - count), resetAt,
                                       Max(1, CeilSeconds(resetAt - call.now)), false)
  {
    hide Swept;
  }

  lemma WindowHolds(now: int, window: int)
    requires window > 0
    ensures (now / window + 1) * window > now && (now / window + 1) * window - window <= now
    ensures ((now / window + 1) * window) % window == 0
  {
    var q := now / window;
    assert now == q * window + now % window;
    MultipleLeavesNothing(q + 1, window);
  }

  lemma MultipleLeavesNothing(n: int, window: int)
    requires window > 0
    ensures (n * window) % window == 0
  {
    DivIs(n * window, window, n);
  }

  /** Of two windows a refusing one decides, the minute's first; of two accepting ones the one with less left. */
  lemma TighterDecides(a: Verdict, b: Verdict)
    ensures Tighter(a, None) == a
    ensures !a.ok ==> Tighter(a, Some(b)) == a
    ensures a.ok && !b.ok ==> Tighter(a, Some(b)) == b
    ensures a.ok && b.ok ==>
              Tighter(a, Some(b)).remaining <= a.remaining && Tighter(a, Some(b)).remaining <= b.remaining
              && Tighter(a, Some(b)) == if b.remaining < a.remaining then b else a
  {
  }

  /** A public request is let through exactly when both its windows accept. */
  lemma IntakeNeedsBoth(c: Counters, r: Intake)
    ensures TakeIntake(c, r).1.ok <==>
              Take(c, MinuteCall(r)).1.ok
              && (HourCall(r).Some? ==> Take(Take(c, MinuteCall(r)).0, HourCall(r).value).1.ok)
  {
    hide Take;
  }

  /** The counter calls a list of public requests makes. */
  function CallsOf(requests: seq<Intake>): seq<Call> {
    if requests == [] then []
    else
      [MinuteCall(requests[0])] + (if HourCall(requests[0]).Some? then [HourCall(requests[0]).value] else [])
      + CallsOf(requests[1..])
  }

  /** The requests let through within `[from, from + seconds)` that spent from `key`. */
  function LetThrough(c: Counters, requests: seq<Intake>, key: string, from: int, seconds: int): nat
    decreases requests
  {
    if requests == [] then 0
    else
      var (after, verdict) := TakeIntake(c, requests[0]);
      var r := requests[0];
      var spends := MinuteCall(r).key == key || (HourCall(r).Some? && HourCall(r).value.key == key);
      LetThrough(after, requests[1..], key, from, seconds)
      + if verdict.ok && spends && from <= r.now < from + seconds * 1000 then 1 else 0
  }

  predicate OrderedRequests(requests: seq<Intake>) {
    forall i, j :: 0 <= i < j < |requests| ==> requests[i].now <= requests[j].now
  }

  lemma {:induction false} CallsOrdered(requests: seq<Intake>)
    requires OrderedRequests(requests)
    ensures Ordered(CallsOf(requests))
    ensures forall call :: call in CallsOf(requests) ==> requests != [] && call.now >= requests[0].now
  {
    if requests != [] {
      CallsOrdered(requests[1..]);
    }
  }

  /** By either counter. */
  function AcceptedAtAll(c: Counters, calls: seq<Call>, key: string, from: int, seconds: int): nat
    requires Ordered(calls)
  {
    Accepted(c, calls, key, from, seconds, false) + Accepted(c, calls, key, from, seconds, true)
  }

  lemma AcceptedNext(c: Counters, call: Call, rest: seq<Call>, key: string, from: int, seconds: int)
    requires call.seconds > 0 && Ordered([call] + rest) && Ordered(rest)
    ensures AcceptedAtAll(c, [call] + rest, key, from, seconds)
            == AcceptedAtAll(Take(c, call).0, rest, key, from, seconds)
               + if call.key == key && Take(c, call).1.ok && from <= call.now < from + seconds * 1000 then 1 else 0
  {
    hide Take, Ordered;
    assert ([call] + rest)[0] == call && ([call] + rest)[1..] == rest;
  }

  /** Requests let through are paid for by accepted calls. */
  lemma {:induction false} LetThroughIsPaid(c: Counters, requests: seq<Intake>, key: string, from: int, seconds: int)
    requires OrderedRequests(requests) && Ordered(CallsOf(requests))
    ensures LetThrough(c, requests, key, from, seconds) <= AcceptedAtAll(c, CallsOf(requests), key, from, seconds)
    decreases |requests|
  {
    hide Take, Ordered, AcceptedAtAll;
    if requests != [] {
      var (r, rest) := (requests[0], CallsOf(requests[1..]));
      CallsOrdered(requests[1..]);
      IntakeNeedsBoth(c, r);
      var calls := CallsOf(requests);
      OrderedTail(calls);
      if HourCall(r).Some? {
        var hour := HourCall(r).value;
        assert calls == [MinuteCall(r)] + ([hour] + rest) && calls[1..] == [hour] + rest;
        AcceptedNext(c, MinuteCall(r), [hour] + rest, key, from, seconds);
        AcceptedNext(Take(c, MinuteCall(r)).0, hour, rest, key, from, seconds);
      } else {
        assert calls == [MinuteCall(r)] + rest && calls[1..] == rest;
        AcceptedNext(c, MinuteCall(r), rest, key, from, seconds);
      }
      LetThroughIsPaid(TakeIntake(c, r).0, requests[1..], key, from, seconds);
    }
  }

  lemma OrderedTail(calls: seq<Call>)
    requires Ordered(calls)
    ensures calls != [] ==> Ordered(calls[1..])
    ensures |calls| > 1 ==> Ordered(calls[1..][1..])
  {
  }

  /** Whatever the counters do, the public budget keeps each window's bound. */
  lemma IntakeIsBounded(c: Counters, requests: seq<Intake>, key: string, limit: int, seconds: int, from: int)
    requires OrderedRequests(requests) && Fixed(CallsOf(requests), key, limit, seconds) && seconds > 0
    ensures LetThrough(c, requests, key, from, seconds) <= 4 * Max(0, limit)
    ensures Opened(c) ==> LetThrough(c, requests, key, from, seconds) <= Max(0, 4 * limit - 1)
    ensures var calls := CallsOf(requests);
            (forall call :: call in calls ==> call.shared.Up?) || (forall call :: call in calls ==> !call.shared.Up?) ==>
              LetThrough(c, requests, key, from, seconds) <= 2 * Max(0, limit)
  {
    hide Accepted, LetThrough, Fixed;
    CallsOrdered(requests);
    OneCounter(c, CallsOf(requests), key, seconds, from);
    LetThroughIsPaid(c, requests, key, from, seconds);
    RateIsBounded(c, CallsOf(requests), key, limit, seconds, from);
  }
}
