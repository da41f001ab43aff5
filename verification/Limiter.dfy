/**
 The unlock rate limiter: a token bucket per key whose map is bounded and
 forgets buckets that have refilled. Tokens are exact reals; the clock counts
 nanoseconds and does not go back.
 */
module Limiter {
  import opened Base

  const SECOND := 1_000_000_000
  const SWEEP_INTERVAL := 600 * SECOND

  datatype Bucket = Bucket(tokens: real, last: int)

  datatype Config = Config(capacity: real, perSecond: real, maxKeys: nat) {
    predicate Valid() { capacity >= 0.0 && perSecond > 0.0 }
  }

  datatype Answer = Answer(ok: bool, wait: int)

  datatype Call = Call(key: string, now: int)

  /** Tokens refilled in a time. */
  function Gain(c: Config, ns: int): real {
    ns as real / 1_000_000_000.0 * c.perSecond
  }

  function Min(x: real, y: real): real {
    if x < y then x else y
  }

  /** The tokens a bucket holds at a time not before its last use. */
  function Level(c: Config, b: Bucket, now: int): real {
    Min(c.capacity, b.tokens + Gain(c, now - b.last))
  }

  function Wait(c: Config, missing: real): int
    requires c.perSecond > 0.0
  {
    (missing / c.perSecond * 1_000_000_000.0).Floor
  }

  lemma GainAdds(c: Config, a: int, b: int)
    requires c.Valid()
    ensures Gain(c, a + b) == Gain(c, a) + Gain(c, b)
    ensures a >= 0 ==> Gain(c, a) >= 0.0
    ensures Gain(c, 0) == 0.0
  {
    assert (a + b) as real / 1_000_000_000.0 == a as real / 1_000_000_000.0 + b as real / 1_000_000_000.0;
    var x, y := a as real / 1_000_000_000.0, b as real / 1_000_000_000.0;
    assert (x + y) * c.perSecond == x * c.perSecond + y * c.perSecond;
    if a >= 0 {
      assert x >= 0.0;
      NonNegative(x, c.perSecond);
    }
  }

  lemma NonNegative(x: real, y: real)
    requires x >= 0.0 && y >= 0.0
    ensures x * y >= 0.0
  {
  }

  // ----- one call, on values -----

  datatype State = State(buckets: map<string, Bucket>, lastSweep: int)

  /** The buckets that have not refilled completely. */
  function Swept(c: Config, buckets: map<string, Bucket>, now: int): map<string, Bucket> {
    map k | k in buckets && Level(c, buckets[k], now) < c.capacity :: buckets[k]
  }

  function Sweep(c: Config, s: State, now: int, force: bool): State {
    if !force && now - s.lastSweep < SWEEP_INTERVAL then s else State(Swept(c, s.buckets, now), now)
  }

  /** The state in which a call looks for room, after the sweeps that come before. */
  function Room(c: Config, s: State, call: Call): State {
    var s1 := Sweep(c, s, call.now, false);
    if call.key !in s1.buckets && |s1.buckets| >= c.maxKeys then Sweep(c, s1, call.now, true) else s1
  }

  /** The call is denied because the map is full, whatever its bucket would say. */
  predicate Refused(c: Config, s: State, call: Call) {
    var r := Room(c, s, call);
    call.key !in r.buckets && |r.buckets| >= c.maxKeys
  }

  /** The bucket of a key, refilled up to now; a key that is not tracked has a full one. */
  function Refilled(c: Config, buckets: map<string, Bucket>, call: Call): Bucket {
    Bucket(if call.key in buckets then Level(c, buckets[call.key], call.now) else c.capacity, call.now)
  }

  function Spend(b: Bucket): Bucket {
    if b.tokens >= 1.0 then b.(tokens := b.tokens - 1.0) else b
  }

  function Verdict(c: Config, b: Bucket): Answer
    requires c.perSecond > 0.0
  {
    if b.tokens >= 1.0 then Answer(true, 0) else Answer(false, Wait(c, 1.0 - b.tokens))
  }

  function Next(c: Config, s: State, call: Call): State {
    var r := Room(c, s, call);
    if Refused(c, s, call) then r
    else r.(buckets := r.buckets[call.key := Spend(Refilled(c, r.buckets, call))])
  }

  function Reply(c: Config, s: State, call: Call): Answer
    requires c.perSecond > 0.0
  {
    if Refused(c, s, call) then Answer(false, Wait(c, 1.0)) else Verdict(c, Refilled(c, Room(c, s, call).buckets, call))
  }

  // ----- the limiter itself -----

  class RateLimiter {
    const config: Config
    var buckets: map<string, Bucket>
    var lastSweep: int

    ghost function Value(): State
      reads this
    {
      State(buckets, lastSweep)
    }

    constructor (config: Config, now: int)
      ensures this.config == config && Value() == State(map[], now)
    {
      this.config := config;
      buckets, lastSweep := map[], now;
    }

    /** Forgets buckets that have refilled completely; at most every SWEEP_INTERVAL unless forced. */
    method DoSweep(now: int, force: bool)
      modifies this
      ensures Value() == Sweep(config, old(Value()), now, force)
    {
      if !force && now - lastSweep < SWEEP_INTERVAL {
        return;
      }
      lastSweep := now;
      var todo := buckets.Keys;
      ghost var before := buckets;
      while todo != {}
        invariant todo <= before.Keys && lastSweep == now
        invariant forall k :: k in buckets <==> k in before && (k in todo || Level(config, before[k], now) < config.capacity)
        invariant forall k :: k in buckets ==> buckets[k] == before[k]
        decreases todo
      {
        var k :| k in todo;
        todo := todo - {k};
        if Level(config, buckets[k], now) >= config.capacity {
          buckets := buckets - {k};
        }
      }
      assert buckets == Swept(config, before, now);
    }

    /** Consumes one token for key, or tells how long until there is one. */
    method Allow(key: string, now: int) returns (ok: bool, wait: int)
      requires config.perSecond > 0.0
      modifies this
      ensures Value() == Next(config, old(Value()), Call(key, now))
      ensures Answer(ok, wait) == Reply(config, old(Value()), Call(key, now))
    {
      DoSweep(now, false);
      var b: Bucket;
      if key !in buckets {
        if |buckets| >= config.maxKeys {
          DoSweep(now, true);
        }
        if |buckets| >= config.maxKeys {
          return false, Wait(config, 1.0);
        }
        b := Bucket(config.capacity, now);
      } else {
        b := Bucket(Level(config, buckets[key], now), now);
      }
      if b.tokens >= 1.0 {
        buckets := buckets[key := b.(tokens := b.tokens - 1.0)];
        return true, 0;
      }
      buckets := buckets[key := b];
      return false, Wait(config, 1.0 - b.tokens);
    }
  }

  // ----- the unbounded limiter -----

  /** Never forgets and never refuses for lack of room. */
  function IdealNext(c: Config, m: map<string, Bucket>, call: Call): map<string, Bucket> {
    m[call.key := Spend(Refilled(c, m, call))]
  }

  function IdealReply(c: Config, m: map<string, Bucket>, call: Call): Answer
    requires c.perSecond > 0.0
  {
    Verdict(c, Refilled(c, m, call))
  }

  function IdealReplies(c: Config, m: map<string, Bucket>, calls: seq<Call>): seq<Answer>
    requires c.perSecond > 0.0
    decreases |calls|
  {
    if calls == [] then [] else [IdealReply(c, m, calls[0])] + IdealReplies(c, IdealNext(c, m, calls[0]), calls[1..])
  }

  /** The calls of a sequence that are not refused for lack of room. */
  function Served(c: Config, s: State, calls: seq<Call>): seq<Call>
    decreases |calls|
  {
    if calls == [] then []
    else
      var rest := Served(c, Next(c, s, calls[0]), calls[1..]);
      if Refused(c, s, calls[0]) then rest else [calls[0]] + rest
  }

  /** What they are answered. */
  function ServedReplies(c: Config, s: State, calls: seq<Call>): seq<Answer>
    requires c.perSecond > 0.0
    decreases |calls|
  {
    if calls == [] then []
    else
      var rest := ServedReplies(c, Next(c, s, calls[0]), calls[1..]);
      if Refused(c, s, calls[0]) then rest else [Reply(c, s, calls[0])] + rest
  }

  function After(c: Config, s: State, calls: seq<Call>): State
    decreases |calls|
  {
    if calls == [] then s else After(c, Next(c, s, calls[0]), calls[1..])
  }

  /** The clock does not go back, from t on. */
  predicate Monotone(t: int, calls: seq<Call>)
    decreases |calls|
  {
    calls == [] || (t <= calls[0].now && Monotone(calls[0].now, calls[1..]))
  }

  /** Between calls, at time t: tracked buckets are those of the unbounded limiter, all others of its are full. */
  ghost predicate Agrees(c: Config, s: State, m: map<string, Bucket>, t: int) {
    && (forall k :: k in s.buckets ==> k in m && m[k] == s.buckets[k])
    && (forall k :: k in m ==> m[k].last <= t)
    && (forall k :: k in m && k !in s.buckets ==> Level(c, m[k], t) == c.capacity)
  }

  lemma LevelGrows(c: Config, b: Bucket, t: int, t': int)
    requires c.Valid() && t <= t'
    ensures Level(c, b, t) <= Level(c, b, t') <= Level(c, b, t) + Gain(c, t' - t)
    ensures Gain(c, t' - t) >= 0.0
  {
    GainAdds(c, t - b.last, t' - t);
    GainAdds(c, t' - t, 0);
  }

  lemma LaterAgrees(c: Config, s: State, m: map<string, Bucket>, t: int, t': int)
    requires c.Valid() && Agrees(c, s, m, t) && t <= t'
    ensures Agrees(c, s, m, t')
  {
    forall k | k in m && k !in s.buckets ensures Level(c, m[k], t') == c.capacity {
      LevelGrows(c, m[k], t, t');
    }
  }

  lemma RoomAgrees(c: Config, s: State, m: map<string, Bucket>, call: Call)
    requires c.Valid() && Agrees(c, s, m, call.now)
    ensures Agrees(c, Room(c, s, call), m, call.now)
  {
  }

  lemma NextAgrees(c: Config, s: State, m: map<string, Bucket>, t: int, call: Call)
    requires c.Valid() && Agrees(c, s, m, t) && t <= call.now
    ensures Refused(c, s, call) ==> Agrees(c, Next(c, s, call), m, call.now)
    ensures !Refused(c, s, call) ==>
              Agrees(c, Next(c, s, call), IdealNext(c, m, call), call.now) && Reply(c, s, call) == IdealReply(c, m, call)
  {
    LaterAgrees(c, s, m, t, call.now);
    RoomAgrees(c, s, m, call);
  }

  lemma IdealCons(c: Config, m: map<string, Bucket>, call: Call, rest: seq<Call>)
    requires c.Valid()
    ensures IdealReplies(c, m, [call] + rest) == [IdealReply(c, m, call)] + IdealReplies(c, IdealNext(c, m, call), rest)
  {
    assert ([call] + rest)[1..] == rest;
  }

  /**
   For every sequence of calls on a clock that does not go back, with all the
   sweeps in between: each call not refused for lack of room is answered, with
   the same wait, as by the limiter that keeps every bucket for ever.
   */
  lemma {:induction false} RefinesUnbounded(c: Config, s: State, m: map<string, Bucket>, t: int, calls: seq<Call>)
    requires c.Valid() && Agrees(c, s, m, t) && Monotone(t, calls)
    ensures ServedReplies(c, s, calls) == IdealReplies(c, m, Served(c, s, calls))
    decreases |calls|
  {
    if calls != [] {
      var call, s' := calls[0], Next(c, s, calls[0]);
      NextAgrees(c, s, m, t, call);
      if Refused(c, s, call) {
        RefinesUnbounded(c, s', m, call.now, calls[1..]);
      } else {
        RefinesUnbounded(c, s', IdealNext(c, m, call), call.now, calls[1..]);
        IdealCons(c, m, call, Served(c, s', calls[1..]));
      }
    }
  }

  /** From the empty limiter on, and it never tracks more than maxKeys keys. */
  lemma LimiterRefinesUnbounded(c: Config, t: int, calls: seq<Call>)
    requires c.Valid() && Monotone(t, calls)
    ensures ServedReplies(c, State(map[], t), calls) == IdealReplies(c, map[], Served(c, State(map[], t), calls))
    ensures |After(c, State(map[], t), calls).buckets| <= c.maxKeys
  {
    RefinesUnbounded(c, State(map[], t), map[], t, calls);
    StaysBounded(c, State(map[], t), calls);
  }

  lemma SubmapIsSmaller(m: map<string, Bucket>, m': map<string, Bucket>)
    requires m.Keys <= m'.Keys
    ensures |m| <= |m'|
  {
    if m.Keys != {} {
      var k :| k in m.Keys;
      assert (m - {k}).Keys == m.Keys - {k} && (m' - {k}).Keys == m'.Keys - {k};
      SubmapIsSmaller(m - {k}, m' - {k});
    }
  }

  lemma {:induction false} StaysBounded(c: Config, s: State, calls: seq<Call>)
    requires |s.buckets| <= c.maxKeys
    ensures |After(c, s, calls).buckets| <= c.maxKeys
    decreases |calls|
  {
    if calls != [] {
      var s1 := Sweep(c, s, calls[0].now, false);
      SubmapIsSmaller(s1.buckets, s.buckets);
      SubmapIsSmaller(Sweep(c, s1, calls[0].now, true).buckets, s1.buckets);
      StaysBounded(c, Next(c, s, calls[0]), calls[1..]);
    }
  }

  // ----- the token budget -----

  function Held(c: Config, buckets: map<string, Bucket>, key: string, t: int): real {
    if key in buckets then Level(c, buckets[key], t) else c.capacity
  }

  /** How many of the calls are allowed for key. */
  function Allowed(c: Config, s: State, calls: seq<Call>, key: string): nat
    requires c.perSecond > 0.0
    decreases |calls|
  {
    if calls == [] then 0
    else (if calls[0].key == key && Reply(c, s, calls[0]).ok then 1 else 0) + Allowed(c, Next(c, s, calls[0]), calls[1..], key)
  }

  ghost predicate Sound(c: Config, s: State, t: int) {
    forall k :: k in s.buckets ==> s.buckets[k].last <= t && 0.0 <= s.buckets[k].tokens
  }

  lemma RoomKeepsHeld(c: Config, s: State, call: Call, key: string)
    ensures Held(c, Room(c, s, call).buckets, key, call.now) == Held(c, s.buckets, key, call.now)
  {
  }

  /** A call takes at most one token of its own key, and exactly one if it is allowed. */
  lemma NextHeld(c: Config, s: State, t: int, call: Call, key: string)
    requires c.Valid() && Sound(c, s, t) && t <= call.now
    ensures Sound(c, Next(c, s, call), call.now)
    ensures Held(c, Next(c, s, call).buckets, key, call.now)
            == Held(c, s.buckets, key, call.now) - if call.key == key && Reply(c, s, call).ok then 1.0 else 0.0
  {
    RoomKeepsHeld(c, s, call, key);
    var r := Room(c, s, call);
    GainAdds(c, 0, 0);
    assert r.buckets.Keys <= s.buckets.Keys && forall k :: k in r.buckets ==> r.buckets[k] == s.buckets[k];
    if !Refused(c, s, call) {
      if call.key in r.buckets {
        GainAdds(c, call.now - r.buckets[call.key].last, 0);
      }
    }
  }

  predicate Within(calls: seq<Call>, from: int, to: int) {
    forall i :: 0 <= i < |calls| ==> from <= calls[i].now <= to
  }

  lemma HeldGrows(c: Config, buckets: map<string, Bucket>, key: string, t: int, t': int)
    requires c.Valid() && t <= t'
    ensures Held(c, buckets, key, t') <= Held(c, buckets, key, t) + Gain(c, t' - t)
  {
    GainAdds(c, t' - t, 0);
    if key in buckets {
      LevelGrows(c, buckets[key], t, t');
    }
  }

  lemma HeldNonNegative(c: Config, s: State, t: int, key: string)
    requires c.Valid() && Sound(c, s, t)
    ensures Held(c, s.buckets, key, t) >= 0.0
  {
    if key in s.buckets {
      GainAdds(c, t - s.buckets[key].last, 0);
    }
  }

  /** Between two calls a key gains what refills; the call takes what it is allowed. */
  lemma HeldAcross(c: Config, s: State, t: int, call: Call, to: int, key: string)
    requires c.Valid() && Sound(c, s, t) && t <= call.now <= to
    ensures Sound(c, Next(c, s, call), call.now)
    ensures Held(c, Next(c, s, call).buckets, key, call.now) + Gain(c, to - call.now)
            + (if call.key == key && Reply(c, s, call).ok then 1.0 else 0.0)
            <= Held(c, s.buckets, key, t) + Gain(c, to - t)
  {
    NextHeld(c, s, t, call, key);
    HeldGrows(c, s.buckets, key, t, call.now);
    GainAdds(c, call.now - t, to - call.now);
  }

  lemma {:induction false} BudgetFrom(c: Config, s: State, t: int, calls: seq<Call>, to: int, key: string)
    requires c.Valid() && Sound(c, s, t) && Monotone(t, calls) && Within(calls, t, to) && t <= to
    ensures Allowed(c, s, calls, key) as real <= Held(c, s.buckets, key, t) + Gain(c, to - t)
    decreases |calls|
  {
    if calls == [] {
      GainAdds(c, to - t, 0);
      HeldNonNegative(c, s, t, key);
    } else {
      MonotoneFrom(calls[0].now, calls[1..]);
      HeldAcross(c, s, t, calls[0], to, key);
      BudgetFrom(c, Next(c, s, calls[0]), calls[0].now, calls[1..], to, key);
    }
  }

  lemma MonotoneFrom(t: int, calls: seq<Call>)
    requires Monotone(t, calls)
    ensures forall i :: 0 <= i < |calls| ==> t <= calls[i].now
    decreases |calls|
  {
    if calls != [] {
      MonotoneFrom(calls[0].now, calls[1..]);
      forall i | 0 <= i < |calls| ensures t <= calls[i].now {
        if i > 0 {
          assert calls[i] == calls[1..][i - 1];
        }
      }
    }
  }

  lemma {:induction false} MonotoneSplit(t: int, before: seq<Call>, calls: seq<Call>)
    requires Monotone(t, before + calls)
    ensures Monotone(t, before)
    ensures Monotone(if before == [] then t else before[|before| - 1].now, calls)
    decreases |before|
  {
    if before == [] {
      assert before + calls == calls;
    } else {
      assert (before + calls)[1..] == before[1..] + calls;
      MonotoneSplit(before[0].now, before[1..], calls);
    }
  }

  lemma {:induction false} SoundAfter(c: Config, s: State, t: int, calls: seq<Call>)
    requires c.Valid() && Sound(c, s, t) && Monotone(t, calls)
    ensures Sound(c, After(c, s, calls), if calls == [] then t else calls[|calls| - 1].now)
    decreases |calls|
  {
    if calls != [] {
      NextHeld(c, s, t, calls[0], "");
      SoundAfter(c, Next(c, s, calls[0]), calls[0].now, calls[1..]);
    }
  }

  lemma MonotoneLater(t: int, t': int, calls: seq<Call>)
    requires Monotone(t, calls) && (calls == [] || t' <= calls[0].now)
    ensures Monotone(t', calls)
  {
  }

  /**
   Whatever came before and whatever was swept: in any window from `from` to `to`
   a key is allowed at most capacity calls plus what is refilled in that time.
   */
  lemma TokenBudget(c: Config, t: int, before: seq<Call>, window: seq<Call>, from: int, to: int, key: string)
    requires c.Valid() && Monotone(t, before + window) && Within(window, from, to) && from <= to
    ensures Allowed(c, After(c, State(map[], t), before), window, key) as real <= c.capacity + Gain(c, to - from)
  {
    MonotoneSplit(t, before, window);
    SoundAfter(c, State(map[], t), t, before);
    GainAdds(c, to - from, 0);
    if window != [] {
      var t0 := if before == [] then t else before[|before| - 1].now;
      BudgetInWindow(c, After(c, State(map[], t), before), t0, window, from, to, key);
    }
  }

  lemma BudgetInWindow(c: Config, s: State, t: int, window: seq<Call>, from: int, to: int, key: string)
    requires c.Valid() && Sound(c, s, t) && Monotone(t, window) && Within(window, from, to) && window != []
    ensures Allowed(c, s, window, key) as real <= c.capacity + Gain(c, to - from)
  {
    var first := window[0].now;
    assert Allowed(c, s, window, key) as real <= c.capacity + Gain(c, to - first) by {
      MonotoneLater(t, first, window);
      MonotoneFrom(first, window);
      BudgetFrom(c, s, first, window, to, key);
    }
    GainAdds(c, first - from, to - first);
    assert Gain(c, to - from) == Gain(c, first - from) + Gain(c, to - first);
  }

  // ----- refusing for want of room -----

  /** The tracked buckets that are short of full. */
  function Short(c: Config, s: State, now: int): set<string> {
    set k | k in s.buckets && Level(c, s.buckets[k], now) < c.capacity
  }

  /** A call is refused exactly if maxKeys buckets are short of full at that moment, and its own is not tracked, or is full and due to be swept. */
  lemma RefusedIff(c: Config, s: State, call: Call)
    ensures Refused(c, s, call) <==>
            && |Short(c, s, call.now)| >= c.maxKeys
            && (call.key !in s.buckets || (call.key !in Short(c, s, call.now) && call.now - s.lastSweep >= SWEEP_INTERVAL))
  {
    var s1 := Sweep(c, s, call.now, false);
    var short := Short(c, s, call.now);
    assert Swept(c, s.buckets, call.now).Keys == short;
    assert Swept(c, s1.buckets, call.now).Keys == short;
    if call.key !in s1.buckets && |s1.buckets| < c.maxKeys {
      assert short <= s1.buckets.Keys;
      SubsetSize(short, s1.buckets.Keys);
    }
    assert |Room(c, s, call).buckets| == |Room(c, s, call).buckets.Keys| && |s1.buckets| == |s1.buckets.Keys|;
  }

  // ----- Retry-After -----

  /** unlockBurst, unlockRefillPerMin and unlockMaxKeys. */
  const UNLOCK := Config(5.0, 5.0 / 60.0, 10000)

  /** rateLimited: the wait, rounded up to whole seconds. */
  function RetryAfter(wait: int): (seconds: int)
    ensures (seconds - 1) * SECOND < wait <= seconds * SECOND
  {
    (wait + SECOND - 1) / SECOND
  }

  /** The tokens that refill in n nanoseconds at the configured rate. */
  function Units(n: int): real {
    n as real / 12_000_000_000.0
  }

  /** x is a whole number of the units that refill in one nanosecond. */
  ghost predicate WholeUnits(x: real) {
    exists n :: x == Units(n)
  }

  ghost predicate AllWhole(s: State) {
    forall k :: k in s.buckets ==> WholeUnits(s.buckets[k].tokens)
  }

  lemma UnlockGain(ns: int)
    ensures Gain(UNLOCK, ns) == Units(ns)
  {
  }

  lemma RefilledWhole(s: State, call: Call)
    requires AllWhole(s)
    ensures WholeUnits(Refilled(UNLOCK, s.buckets, call).tokens) && WholeUnits(Spend(Refilled(UNLOCK, s.buckets, call)).tokens)
  {
    assert 5.0 == Units(60_000_000_000);
    var b := Refilled(UNLOCK, s.buckets, call);
    if call.key in s.buckets && b.tokens != 5.0 {
      var n :| s.buckets[call.key].tokens == Units(n);
      var ns := call.now - s.buckets[call.key].last;
      UnlockGain(ns);
      assert Units(n) + Units(ns) == Units(n + ns);
      assert WholeUnits(b.tokens);
    }
    var n :| b.tokens == Units(n);
    UnitsLessOne(n);
    assert WholeUnits(b.tokens - 1.0);
  }

  lemma UnitsLessOne(n: int)
    ensures Units(n - 12_000_000_000) == Units(n) - 1.0
  {
    var x := n as real;
    assert (n - 12_000_000_000) as real == x - 12_000_000_000.0;
    assert (x - 12_000_000_000.0) / 12_000_000_000.0 == x / 12_000_000_000.0 - 1.0;
  }

  lemma {:induction false} AllWholeAfter(s: State, calls: seq<Call>)
    requires AllWhole(s)
    ensures AllWhole(After(UNLOCK, s, calls))
    decreases |calls|
  {
    if calls != [] {
      var r := Room(UNLOCK, s, calls[0]);
      assert AllWhole(r);
      RefilledWhole(r, calls[0]);
      AllWholeAfter(Next(UNLOCK, s, calls[0]), calls[1..]);
    }
  }

  /** Calls on other keys leave what this key holds alone. */
  lemma {:induction false} OthersKeepHeld(s: State, t: int, calls: seq<Call>, key: string, now: int)
    requires Sound(UNLOCK, s, t) && Monotone(t, calls) && forall i :: 0 <= i < |calls| ==> calls[i].key != key && calls[i].now <= now
    requires t <= now
    ensures Held(UNLOCK, After(UNLOCK, s, calls).buckets, key, now) == Held(UNLOCK, s.buckets, key, now)
    decreases |calls|
  {
    if calls != [] {
      var call := calls[0];
      NextHeld(UNLOCK, s, t, call, key);
      RoomKeepsFuture(s, call, key, now);
      OthersKeepHeld(Next(UNLOCK, s, call), call.now, calls[1..], key, now);
    }
  }

  lemma RoomKeepsFuture(s: State, call: Call, key: string, now: int)
    requires call.now <= now
    ensures Held(UNLOCK, Room(UNLOCK, s, call).buckets, key, now) == Held(UNLOCK, s.buckets, key, now)
  {
    if key in s.buckets {
      LevelGrows(UNLOCK, s.buckets[key], call.now, now);
    }
  }

  /** The denied bucket, after the wait it was told, holds a token again. */
  lemma WaitIsEnough(b: Bucket, now: int)
    requires WholeUnits(b.tokens) && b.tokens < 1.0
    requires now >= b.last + RetryAfter(Wait(UNLOCK, 1.0 - b.tokens)) * SECOND
    ensures Level(UNLOCK, b, now) >= 1.0
  {
    var n :| b.tokens == Units(n);
    var missing := 12_000_000_000 - n;
    assert 1.0 - b.tokens == Units(missing);
    assert Units(missing) / UNLOCK.perSecond * 1_000_000_000.0 == missing as real;
    assert Wait(UNLOCK, 1.0 - b.tokens) == missing;
    assert now - b.last >= missing;
    UnlockGain(now - b.last);
    UnlockGain(missing);
  }

  /** One nanosecond less than the wait is not enough. */
  lemma WaitIsNeeded(c: Config, b: Bucket, now: int)
    requires c.Valid() && b.tokens < 1.0 && now < b.last + Wait(c, 1.0 - b.tokens)
    ensures Level(c, b, now) < 1.0
  {
    var ns, missing := now - b.last, 1.0 - b.tokens;
    var exact := missing / c.perSecond * 1_000_000_000.0;
    assert ns as real < exact;
    ScaledBelow(ns as real, missing, c.perSecond);
  }

  lemma ScaledBelow(ns: real, missing: real, rate: real)
    requires rate > 0.0 && ns < missing / rate * 1_000_000_000.0
    ensures ns / 1_000_000_000.0 * rate < missing
  {
    var x, y := ns / 1_000_000_000.0, missing / rate;
    assert x < y;
    assert x * rate < y * rate;
  }

  /** A call on a key comes too early, if it comes before the wait that the key was last told is over. */
  lemma TooEarly(s: State, t: int, denied: Call, others: seq<Call>, again: Call)
    requires Sound(UNLOCK, s, t) && AllWhole(s) && t <= denied.now <= again.now && again.key == denied.key
    requires Monotone(denied.now, others) && forall i :: 0 <= i < |others| ==> others[i].key != denied.key && others[i].now <= again.now
    requires !Refused(UNLOCK, s, denied) && !Reply(UNLOCK, s, denied).ok
    requires again.now < denied.now + Reply(UNLOCK, s, denied).wait
    ensures !Reply(UNLOCK, After(UNLOCK, Next(UNLOCK, s, denied), others), again).ok
  {
    var b := DeniedBucket(s, t, denied);
    var s1 := Next(UNLOCK, s, denied);
    WaitIsNeeded(UNLOCK, b, again.now);
    OthersKeepHeld(s1, denied.now, others, denied.key, again.now);
    RoomKeepsHeld(UNLOCK, After(UNLOCK, s1, others), again, again.key);
  }

  /** A call that its bucket denies leaves the bucket short of a token, and the wait is for what is missing. */
  lemma DeniedBucket(s: State, t: int, denied: Call) returns (b: Bucket)
    requires Sound(UNLOCK, s, t) && AllWhole(s) && t <= denied.now
    requires !Refused(UNLOCK, s, denied) && !Reply(UNLOCK, s, denied).ok
    ensures var s1 := Next(UNLOCK, s, denied);
            Sound(UNLOCK, s1, denied.now) && denied.key in s1.buckets && s1.buckets[denied.key] == b
    ensures WholeUnits(b.tokens) && b.tokens < 1.0 && b.last == denied.now
    ensures Reply(UNLOCK, s, denied).wait == Wait(UNLOCK, 1.0 - b.tokens)
  {
    NextHeld(UNLOCK, s, t, denied, denied.key);
    var r := Room(UNLOCK, s, denied);
    b := Refilled(UNLOCK, r.buckets, denied);
    RefilledWhole(r, denied);
  }

  /** A key whose bucket holds a token is allowed. */
  lemma HeldIsAllowed(s: State, call: Call)
    requires Held(UNLOCK, s.buckets, call.key, call.now) >= 1.0 && !Refused(UNLOCK, s, call)
    ensures Reply(UNLOCK, s, call).ok
  {
    RoomKeepsHeld(UNLOCK, s, call, call.key);
  }

  lemma HonestFrom(s: State, t: int, denied: Call, others: seq<Call>, again: Call)
    requires Sound(UNLOCK, s, t) && AllWhole(s) && t <= denied.now <= again.now && again.key == denied.key
    requires Monotone(denied.now, others) && forall i :: 0 <= i < |others| ==> others[i].key != denied.key && others[i].now <= again.now
    requires !Refused(UNLOCK, s, denied) && !Reply(UNLOCK, s, denied).ok
    requires again.now >= denied.now + RetryAfter(Reply(UNLOCK, s, denied).wait) * SECOND
    requires !Refused(UNLOCK, After(UNLOCK, Next(UNLOCK, s, denied), others), again)
    ensures Reply(UNLOCK, After(UNLOCK, Next(UNLOCK, s, denied), others), again).ok
  {
    var b := DeniedBucket(s, t, denied);
    var s1 := Next(UNLOCK, s, denied);
    WaitIsEnough(b, again.now);
    OthersKeepHeld(s1, denied.now, others, denied.key, again.now);
    HeldIsAllowed(After(UNLOCK, s1, others), again);
  }

  /**
   At the configured rate: after any calls, a call that its bucket denies, and any
   calls on other keys, the next call on the key that comes no earlier than the
   rounded-up Retry-After is allowed, unless the key has been swept and then finds
   the map full.
   */
  lemma RetryAfterIsHonest(t: int, before: seq<Call>, denied: Call, others: seq<Call>, again: Call)
    requires Monotone(t, before + [denied] + others + [again]) && again.key == denied.key
    requires forall i :: 0 <= i < |others| ==> others[i].key != denied.key
    requires var s := After(UNLOCK, State(map[], t), before);
             && !Refused(UNLOCK, s, denied) && !Reply(UNLOCK, s, denied).ok
             && again.now >= denied.now + RetryAfter(Reply(UNLOCK, s, denied).wait) * SECOND
             && !Refused(UNLOCK, After(UNLOCK, Next(UNLOCK, s, denied), others), again)
    ensures Reply(UNLOCK, After(UNLOCK, Next(UNLOCK, After(UNLOCK, State(map[], t), before), denied), others), again).ok
  {
    Split(t, before, denied, others, again);
    SoundAfter(UNLOCK, State(map[], t), t, before);
    AllWholeAfter(State(map[], t), before);
    HonestFrom(After(UNLOCK, State(map[], t), before), if before == [] then t else before[|before| - 1].now, denied, others, again);
  }

  /** And no call on the key that comes before the wait is over is allowed: the wait is exact. */
  lemma NoSoonerThanTheWait(t: int, before: seq<Call>, denied: Call, others: seq<Call>, again: Call)
    requires Monotone(t, before + [denied] + others + [again]) && again.key == denied.key
    requires forall i :: 0 <= i < |others| ==> others[i].key != denied.key
    requires var s := After(UNLOCK, State(map[], t), before);
             && !Refused(UNLOCK, s, denied) && !Reply(UNLOCK, s, denied).ok
             && again.now < denied.now + Reply(UNLOCK, s, denied).wait
    ensures !Reply(UNLOCK, After(UNLOCK, Next(UNLOCK, After(UNLOCK, State(map[], t), before), denied), others), again).ok
  {
    Split(t, before, denied, others, again);
    SoundAfter(UNLOCK, State(map[], t), t, before);
    AllWholeAfter(State(map[], t), before);
    TooEarly(After(UNLOCK, State(map[], t), before), if before == [] then t else before[|before| - 1].now, denied, others, again);
  }

  /** What a clock that does not go back says of a call, calls after it, and a last one. */
  lemma Split(t: int, before: seq<Call>, denied: Call, others: seq<Call>, again: Call)
    requires Monotone(t, before + [denied] + others + [again])
    ensures Monotone(t, before) && (if before == [] then t else before[|before| - 1].now) <= denied.now <= again.now
    ensures Monotone(denied.now, others) && forall i :: 0 <= i < |others| ==> others[i].now <= again.now
  {
    assert before + [denied] + others + [again] == before + ([denied] + others + [again]);
    MonotoneSplit(t, before, [denied] + others + [again]);
    assert ([denied] + others + [again])[1..] == others + [again];
    MonotoneSplit(denied.now, others, [again]);
    LastIsLatest(denied.now, others, again);
    MonotoneFrom(denied.now, others + [again]);
    assert (others + [again])[|others|] == again;
  }

  lemma {:induction false} LastIsLatest(t: int, calls: seq<Call>, last: Call)
    requires Monotone(t, calls + [last])
    ensures forall i :: 0 <= i < |calls| ==> calls[i].now <= last.now
    decreases |calls|
  {
    if calls != [] {
      assert (calls + [last])[1..] == calls[1..] + [last];
      MonotoneFrom(calls[0].now, calls[1..] + [last]);
      assert (calls[1..] + [last])[|calls| - 1] == last;
      LastIsLatest(calls[0].now, calls[1..], last);
      forall i | 0 <= i < |calls| ensures calls[i].now <= last.now {
        if i > 0 {
          assert calls[i] == calls[1..][i - 1];
        }
      }
    }
  }
}
