/**
 The Redis-backed token bucket. One run of the script loads a hash, refills by the
 whole tokens earned since the last call, consumes one token if there is one and
 stores the result with a fresh expiry. Times are milliseconds, so elapsed seconds
 times rate is `ms * rate / 1000`.
 */
module TokenBucket {
  import opened Base

  datatype Limits = Limits(rate: nat, capacity: nat)

  datatype Bucket = Bucket(tokens: nat, last: int)

  /** Whole tokens earned over an elapsed time; a clock that went back earns none. */
  function Earned(rate: nat, elapsed: int): nat {
    Max(0, elapsed) * rate / 1000
  }

  /** Tokens on hand once the script has refilled. */
  function OnHand(l: Limits, b: Option<Bucket>, now: int): nat {
    match b
    case None => l.capacity
    case Some(b) => Min(l.capacity, b.tokens + Earned(l.rate, now - b.last))
  }

  function AfterCall(l: Limits, b: Option<Bucket>, now: int): Bucket {
    Bucket(Max(0, OnHand(l, b, now) - 1), now)
  }

  predicate Allowed(l: Limits, b: Option<Bucket>, now: int) {
    OnHand(l, b, now) >= 1
  }

  /** Seconds a key outlives its last call. */
  function Ttl(l: Limits): nat
    requires l.rate >= 1
  {
    l.capacity / l.rate * 2 + 10
  }

  /** A hash in Redis with the server time at which it expires. */
  datatype Entry = Entry(bucket: Bucket, expiresAt: int)

  /** What a script finds at server time `clock`: an expired hash is not there. */
  function Live(e: Option<Entry>, clock: int): Option<Bucket> {
    if e.Some? && clock < e.value.expiresAt then Some(e.value.bucket) else None
  }

  class RedisStore {
    var hashes: map<string, Entry>

    function Lookup(key: string): Option<Entry>
      reads this
    {
      if key in hashes then Some(hashes[key]) else None
    }

    /** One atomic script run for `rl:<key>`; `clock` is the server's time, `now` the caller's. */
    method RunScript(key: string, clock: int, now: int, l: Limits, ttl: nat) returns (result: nat)
      modifies this
      ensures var found := Live(old(Lookup(key)), clock);
              && hashes == old(hashes)[key := Entry(AfterCall(l, found, now), clock + ttl * 1000)]
              && result == if Allowed(l, found, now) then 1 else 0
    {
      var tokens, last;
      if key in hashes && clock < hashes[key].expiresAt {
        tokens, last := hashes[key].bucket.tokens, hashes[key].bucket.last;
      } else {
        tokens, last := l.capacity, now;
      }
      var elapsed := Max(0, now - last);
      var refill := elapsed * l.rate / 1000;
      tokens := Min(l.capacity, tokens + refill);
      last := now;
      if tokens < 1 {
        hashes := hashes[key := Entry(Bucket(tokens, last), clock + ttl * 1000)];
        return 0;
      }
      tokens := tokens - 1;
      hashes := hashes[key := Entry(Bucket(tokens, last), clock + ttl * 1000)];
      result := 1;
    }

    /** When Redis cannot be reached the request is let through and nothing is stored. */
    method Allow(key: string, clock: int, now: int, l: Limits, reachable: bool) returns (allowed: bool, error: bool)
      requires l.rate >= 1
      modifies this
      ensures !reachable ==> allowed && error && hashes == old(hashes)
      ensures reachable ==>
        var k := "rl:" + key;
        var found := Live(old(Lookup(k)), clock);
        && !error && (allowed <==> Allowed(l, found, now))
        && hashes == old(hashes)[k := Stored(l, old(Lookup(k)), Call(clock, now))]
    {
      if !reachable {
        return true, true;
      }
      var ttl := l.capacity / l.rate * 2 + 10;
      var result := RunScript("rl:" + key, clock, now, l, ttl);
      return result == 1, false;
    }
  }

  /** One call: the server's time and the caller's, in milliseconds. */
  datatype Call = Call(clock: int, now: int)

  /** What a call leaves in the store. */
  function Stored(l: Limits, e: Option<Entry>, c: Call): Entry
    requires l.rate >= 1
  {
    Entry(AfterCall(l, Live(e, c.clock), c.now), c.clock + Ttl(l) * 1000)
  }

  // ---- Runs of one key -------------------------------------------------------------

  /** The bucket after calls at the given times. */
  function After(l: Limits, b: Option<Bucket>, times: seq<int>): Option<Bucket> {
    if times == [] then b
    else Some(AfterCall(l, After(l, b, times[..|times| - 1]), times[|times| - 1]))
  }

  function Decisions(l: Limits, b: Option<Bucket>, times: seq<int>): (ds: seq<bool>)
    ensures |ds| == |times|
  {
    if times == [] then []
    else
      var before := times[..|times| - 1];
      Decisions(l, b, before) + [Allowed(l, After(l, b, before), times[|times| - 1])]
  }

  function Count(ds: seq<bool>): nat {
    if ds == [] then 0 else Count(ds[..|ds| - 1]) + if ds[|ds| - 1] then 1 else 0
  }

  function Passed(l: Limits, b: Option<Bucket>, times: seq<int>): nat {
    Count(Decisions(l, b, times))
  }

  lemma PassedSnoc(l: Limits, b: Option<Bucket>, times: seq<int>)
    requires times != []
    ensures var before := times[..|times| - 1];
            Passed(l, b, times)
              == Passed(l, b, before) + if Allowed(l, After(l, b, before), times[|times| - 1]) then 1 else 0
  {
    var ds := Decisions(l, b, times);
    assert ds[..|ds| - 1] == Decisions(l, b, times[..|times| - 1]);
  }

  /** Time that passed forwards between the first and the last call. */
  function Ascent(times: seq<int>): nat {
    if |times| <= 1 then 0
    else Ascent(times[..|times| - 1]) + Max(0, times[|times| - 1] - times[|times| - 2])
  }

  predicate Within(l: Limits, b: Option<Bucket>) {
    b.Some? ==> b.value.tokens <= l.capacity
  }

  /** Stored tokens stay between 0 and the capacity. */
  lemma {:induction false} TokensWithin(l: Limits, b: Option<Bucket>, times: seq<int>)
    requires Within(l, b)
    ensures Within(l, After(l, b, times))
  {
    if times != [] { TokensWithin(l, b, times[..|times| - 1]); }
  }

  lemma EarnedAdds(rate: nat, a: nat, b: nat)
    ensures Earned(rate, a) + Earned(rate, b) <= Earned(rate, a + b)
  {
    assert (a + b) * rate == a * rate + b * rate;
  }

  lemma EarnedMonotone(rate: nat, a: nat, b: nat)
    requires a <= b
    ensures Earned(rate, a) <= Earned(rate, b)
  {
    EarnedAdds(rate, a, b - a);
  }

  /** What a gap is worth to a client: the whole tokens it earns, and never more than a full bucket. */
  function GapWorth(l: Limits, gap: int): nat {
    Min(l.capacity, Earned(l.rate, gap))
  }

  /** What the gaps between successive instants are worth together. */
  function Worth(l: Limits, us: seq<int>): nat {
    if |us| <= 1 then 0 else Worth(l, us[..|us| - 1]) + GapWorth(l, us[|us| - 1] - us[|us| - 2])
  }

  /** Calls let through plus tokens left never exceed the capacity plus what the gaps are worth. */
  lemma {:induction false} Budget(l: Limits, b: Option<Bucket>, times: seq<int>)
    requires times != []
    ensures After(l, b, times).Some? && After(l, b, times).value.last == times[|times| - 1]
    ensures Passed(l, b, times) + After(l, b, times).value.tokens <= l.capacity + Worth(l, times)
  {
    var before := times[..|times| - 1];
    PassedSnoc(l, b, times);
    if before == [] {
      assert Passed(l, b, before) == 0;
    } else {
      Budget(l, b, before);
      assert before[|before| - 1] == times[|times| - 2];
    }
  }

  lemma {:induction false} WorthAtMost(l: Limits, us: seq<int>)
    ensures Worth(l, us) <= Earned(l.rate, Ascent(us))
  {
    if |us| > 1 {
      WorthAtMost(l, us[..|us| - 1]);
      var gap := us[|us| - 1] - us[|us| - 2];
      assert Earned(l.rate, gap) == Earned(l.rate, Max(0, gap));
      EarnedAdds(l.rate, Ascent(us[..|us| - 1]), Max(0, gap));
    }
  }

  /** Every run, whatever the clocks do: at most the capacity plus what the gaps are worth gets through. */
  lemma PassedWorth(l: Limits, b: Option<Bucket>, times: seq<int>)
    ensures Passed(l, b, times) <= l.capacity + Worth(l, times)
  {
    if times != [] { Budget(l, b, times); }
  }

  /** And so at most the capacity plus what forward time earned. */
  lemma PassedBound(l: Limits, b: Option<Bucket>, times: seq<int>)
    ensures Passed(l, b, times) <= l.capacity + Earned(l.rate, Ascent(times))
  {
    PassedWorth(l, b, times);
    WorthAtMost(l, times);
  }

  ghost predicate NonDecreasing(times: seq<int>) {
    forall i :: 0 < i < |times| ==> times[i - 1] <= times[i]
  }

  lemma {:induction false} AscentTelescopes(times: seq<int>)
    requires NonDecreasing(times) && times != []
    ensures Ascent(times) == times[|times| - 1] - times[0]
  {
    if |times| > 1 {
      var before := times[..|times| - 1];
      forall i | 0 < i < |before| ensures before[i - 1] <= before[i] { assert times[i - 1] <= times[i]; }
      AscentTelescopes(before);
    }
  }

  lemma {:induction false} DecisionsSuffix(l: Limits, b: Option<Bucket>, a: seq<int>, c: seq<int>)
    ensures After(l, b, a + c) == After(l, After(l, b, a), c)
    ensures Decisions(l, b, a + c) == Decisions(l, b, a) + Decisions(l, After(l, b, a), c)
    decreases |c|
  {
    if c == [] {
      assert a + c == a;
    } else {
      var before := c[..|c| - 1];
      assert (a + c)[..|a + c| - 1] == a + before;
      DecisionsSuffix(l, b, a, before);
    }
  }

  lemma DecisionsWindow(l: Limits, b: Option<Bucket>, times: seq<int>, i: nat, j: nat)
    requires i <= j <= |times|
    ensures Decisions(l, b, times)[i..j] == Decisions(l, After(l, b, times[..i]), times[i..j])
  {
    assert times == times[..j] + times[j..] && times[..j] == times[..i] + times[i..j];
    DecisionsSuffix(l, b, times[..j], times[j..]);
    DecisionsSuffix(l, b, times[..i], times[i..j]);
  }

  lemma PassedWithin(l: Limits, b: Option<Bucket>, times: seq<int>, s: int, t: int)
    requires s <= t && NonDecreasing(times) && forall k :: 0 <= k < |times| ==> s <= times[k] <= t
    ensures Passed(l, b, times) <= l.capacity + Earned(l.rate, t - s)
  {
    PassedWorth(l, b, times);
    InOrderWorth(l, times, s, t);
  }

  /**
   In every run with nondecreasing timestamps and every window [s, t], the calls of
   the window that get through number at most capacity + floor(rate * (t - s)).
   */
  lemma WindowBound(l: Limits, b: Option<Bucket>, times: seq<int>, i: nat, j: nat, s: int, t: int)
    requires i <= j <= |times| && s <= t && NonDecreasing(times)
    requires forall k :: i <= k < j ==> s <= times[k] <= t
    ensures Count(Decisions(l, b, times)[i..j]) <= l.capacity + (t - s) * l.rate / 1000
  {
    DecisionsWindow(l, b, times, i, j);
    var mid := times[i..j];
    forall k | 0 < k < |mid| ensures mid[k - 1] <= mid[k] { assert times[i + k - 1] <= times[i + k]; }
    PassedWithin(l, After(l, b, times[..i]), mid, s, t);
  }

  lemma OneMore(l: Limits, b: Option<Bucket>, times: seq<int>, now: int, mid: Option<Bucket>, passed: nat)
    requires After(l, b, times) == mid && Passed(l, b, times) == passed
    ensures After(l, b, times + [now]) == Some(AfterCall(l, mid, now))
    ensures Passed(l, b, times + [now]) == passed + if Allowed(l, mid, now) then 1 else 0
  {
    assert (times + [now])[..|times|] == times;
    PassedSnoc(l, b, times + [now]);
  }

  /** With clocks that disagree the bound fails: three calls pass in one second at rate 1 and capacity 1. */
  lemma BackwardClockExceeds()
    ensures var times := [] + [0] + [1000] + [0] + [1000];
            (forall k :: 0 <= k < |times| ==> 0 <= times[k] <= 1000)
            && Passed(Limits(1, 1), None, times) == 3 > 1 + 1000 * 1 / 1000
  {
    var l := Limits(1, 1);
    OneMore(l, None, [], 0, None, 0);
    OneMore(l, None, [] + [0], 1000, Some(Bucket(0, 0)), 1);
    OneMore(l, None, [] + [0] + [1000], 0, Some(Bucket(0, 1000)), 2);
    OneMore(l, None, [] + [0] + [1000] + [0], 1000, Some(Bucket(0, 0)), 2);
  }

  // ---- Fractions of a token are thrown away --------------------------------------------

  predicate TooSoon(rate: nat, gap: int) {
    gap * rate < 1000
  }

  lemma TooSoonIff(rate: nat, gap: int)
    ensures Earned(rate, gap) == 0 <==> TooSoon(rate, gap)
  {
    if gap < 0 {
      assert Max(0, gap) * rate == 0 && gap * rate <= 0;
    }
  }

  /** On an empty bucket a call passes exactly when the gap since the last call, passed or not, earns a whole token. */
  lemma EmptyPassesIff(l: Limits, last: int, now: int)
    requires l.capacity >= 1
    ensures Allowed(l, Some(Bucket(0, last)), now) <==> !TooSoon(l.rate, now - last)
  {
    TooSoonIff(l.rate, now - last);
  }

  /** Time since the call before, the first one counted from `last`. */
  function Gap(last: int, times: seq<int>, i: nat): int
    requires i < |times|
  {
    times[i] - if i == 0 then last else times[i - 1]
  }

  /** Every gap is too short for a whole token. */
  ghost predicate Polls(rate: nat, last: int, times: seq<int>) {
    forall i :: 0 <= i < |times| ==> TooSoon(rate, Gap(last, times, i))
  }

  /** A client that calls more often than once per token gets the tokens it had, and then nothing, for ever. */
  lemma {:induction false} PollingStarves(l: Limits, b: Bucket, times: seq<int>)
    requires b.tokens <= l.capacity && Polls(l.rate, b.last, times)
    ensures Passed(l, Some(b), times) == Min(|times|, b.tokens)
    ensures After(l, Some(b), times)
         == Some(Bucket(Max(0, b.tokens - |times|), if times == [] then b.last else times[|times| - 1]))
  {
    if times != [] {
      var before, now := times[..|times| - 1], times[|times| - 1];
      forall i | 0 <= i < |before| ensures TooSoon(l.rate, Gap(b.last, before, i)) {
        assert Gap(b.last, before, i) == Gap(b.last, times, i);
      }
      PollingStarves(l, b, before);
      PassedSnoc(l, Some(b), times);
      var mid := After(l, Some(b), before).value;
      assert now - mid.last == Gap(b.last, times, |times| - 1);
      TooSoonIff(l.rate, now - mid.last);
    }
  }

  /** From an empty bucket nothing ever gets through exactly when every gap is too short. */
  lemma {:induction false} StarvesIff(l: Limits, last: int, times: seq<int>)
    requires l.capacity >= 1
    ensures Passed(l, Some(Bucket(0, last)), times) == 0 <==> Polls(l.rate, last, times)
    decreases |times|
  {
    var b := Bucket(0, last);
    if Polls(l.rate, last, times) {
      PollingStarves(l, b, times);
    } else {
      var before, now := times[..|times| - 1], times[|times| - 1];
      StarvesIff(l, last, before);
      PassedSnoc(l, Some(b), times);
      if Polls(l.rate, last, before) {
        PollingStarves(l, b, before);
        LastGapDecides(l.rate, last, times);
        var mid := After(l, Some(b), before).value;
        assert mid.tokens == 0 && now - mid.last == Gap(last, times, |times| - 1);
        EmptyPassesIff(l, mid.last, now);
      }
    }
  }

  lemma LastGapDecides(rate: nat, last: int, times: seq<int>)
    requires times != [] && Polls(rate, last, times[..|times| - 1])
    ensures Polls(rate, last, times) <==> TooSoon(rate, Gap(last, times, |times| - 1))
  {
    var before := times[..|times| - 1];
    forall i | 0 <= i < |before| ensures TooSoon(rate, Gap(last, times, i)) {
      assert TooSoon(rate, Gap(last, before, i));
    }
  }

  // ---- Exactly when a burst exceeds a window's bound ------------------------------------

  /** `k` calls at one instant. */
  function Burst(u: int, k: nat): (times: seq<int>)
    ensures |times| == k && forall i :: 0 <= i < k ==> times[i] == u
  {
    seq(k, i => u)
  }

  /** `k` calls at every instant. */
  function Each(us: seq<int>, k: nat): seq<int> {
    if us == [] then [] else Each(us[..|us| - 1], k) + Burst(us[|us| - 1], k)
  }

  lemma {:induction false} CountAdds(a: seq<bool>, b: seq<bool>)
    ensures Count(a + b) == Count(a) + Count(b)
    decreases |b|
  {
    if b == [] {
      assert a + b == a;
    } else {
      assert (a + b)[..|a + b| - 1] == a + b[..|b| - 1];
      CountAdds(a, b[..|b| - 1]);
    }
  }

  lemma PassedAdds(l: Limits, b: Option<Bucket>, x: seq<int>, y: seq<int>)
    ensures After(l, b, x + y) == After(l, After(l, b, x), y)
    ensures Passed(l, b, x + y) == Passed(l, b, x) + Passed(l, After(l, b, x), y)
  {
    DecisionsSuffix(l, b, x, y);
    CountAdds(Decisions(l, b, x), Decisions(l, After(l, b, x), y));
  }

  /** The bucket as a call at `u` finds it once the script has refilled. */
  function Refilled(l: Limits, b: Option<Bucket>, u: int): Bucket {
    Bucket(OnHand(l, b, u), u)
  }

  lemma {:induction false} RefilledSame(l: Limits, b: Option<Bucket>, u: int, k: nat)
    requires k >= 1
    ensures After(l, b, Burst(u, k)) == After(l, Some(Refilled(l, b, u)), Burst(u, k))
    ensures Passed(l, b, Burst(u, k)) == Passed(l, Some(Refilled(l, b, u)), Burst(u, k))
  {
    assert Burst(u, k)[..k - 1] == Burst(u, k - 1);
    PassedSnoc(l, b, Burst(u, k));
    PassedSnoc(l, Some(Refilled(l, b, u)), Burst(u, k));
    if k > 1 {
      RefilledSame(l, b, u, k - 1);
    } else {
      assert Passed(l, b, []) == 0 == Passed(l, Some(Refilled(l, b, u)), []);
    }
  }

  /** A burst at one instant takes what the refill left on hand, up to its length. */
  lemma BurstTakes(l: Limits, b: Option<Bucket>, u: int, k: nat)
    requires k >= 1
    ensures Passed(l, b, Burst(u, k)) == Min(k, OnHand(l, b, u))
    ensures After(l, b, Burst(u, k)) == Some(Bucket(Max(0, OnHand(l, b, u) - k), u))
  {
    RefilledSame(l, b, u, k);
    forall i | 0 <= i < k ensures TooSoon(l.rate, Gap(u, Burst(u, k), i)) { assert Gap(u, Burst(u, k), i) == 0; }
    PollingStarves(l, Refilled(l, b, u), Burst(u, k));
  }

  /** Bursts as long as the capacity use up everything the gaps are worth. */
  lemma {:induction false} BurstsTakeAll(l: Limits, us: seq<int>)
    requires us != [] && l.capacity >= 1
    ensures Passed(l, None, Each(us, l.capacity)) == l.capacity + Worth(l, us)
    ensures After(l, None, Each(us, l.capacity)) == Some(Bucket(0, us[|us| - 1]))
  {
    var before, u, k := us[..|us| - 1], us[|us| - 1], l.capacity;
    PassedAdds(l, None, Each(before, k), Burst(u, k));
    BurstTakes(l, After(l, None, Each(before, k)), u, k);
    if before == [] {
      assert Each(before, k) == [] && Passed(l, None, []) == 0;
    } else {
      BurstsTakeAll(l, before);
      assert before[|before| - 1] == us[|us| - 2];
    }
  }

  lemma {:induction false} WorthBurst(l: Limits, times: seq<int>, u: int, k: nat)
    requires times != [] && k >= 1
    ensures Worth(l, times + Burst(u, k)) == Worth(l, times) + GapWorth(l, u - times[|times| - 1])
  {
    var all := times + Burst(u, k);
    assert all[..|all| - 1] == times + Burst(u, k - 1);
    if k > 1 {
      WorthBurst(l, times, u, k - 1);
      assert all[|all| - 1] == u == all[|all| - 2];
      assert GapWorth(l, 0) == 0;
    } else {
      assert times + Burst(u, 0) == times;
    }
  }

  lemma {:induction false} WorthOne(l: Limits, u: int, k: nat)
    ensures Worth(l, Burst(u, k)) == 0
  {
    if k > 1 {
      assert Burst(u, k)[..k - 1] == Burst(u, k - 1);
      WorthOne(l, u, k - 1);
      assert GapWorth(l, 0) == 0;
    }
  }

  /** Repeating a call at the same instant adds nothing to what the gaps are worth. */
  lemma {:induction false} WorthEach(l: Limits, us: seq<int>, k: nat)
    requires us != [] && k >= 1
    ensures Each(us, k) != [] && Each(us, k)[|Each(us, k)| - 1] == us[|us| - 1]
    ensures Worth(l, Each(us, k)) == Worth(l, us)
  {
    var before, u := us[..|us| - 1], us[|us| - 1];
    if before == [] {
      assert Each(us, k) == Burst(u, k);
      WorthOne(l, u, k);
    } else {
      WorthEach(l, before, k);
      WorthBurst(l, Each(before, k), u, k);
    }
  }

  /**
   Whatever instants the calls come at and in whatever order, some number of calls at
   each gets more through than the capacity and what a window [s, t] earns exactly when
   the gaps are worth more than the window.
   */
  lemma BurstExceedsIff(l: Limits, us: seq<int>, s: int, t: int)
    requires us != [] && s <= t
    ensures (exists k :: k >= 1 && Passed(l, None, Each(us, k)) > l.capacity + Earned(l.rate, t - s))
       <==> Worth(l, us) > Earned(l.rate, t - s)
  {
    var bound := l.capacity + Earned(l.rate, t - s);
    if k :| k >= 1 && Passed(l, None, Each(us, k)) > bound {
      PassedWorth(l, None, Each(us, k));
      WorthEach(l, us, k);
    }
    if Worth(l, us) > Earned(l.rate, t - s) {
      if l.capacity == 0 { WorthNothing(l, us); }
      BurstsTakeAll(l, us);
      assert Passed(l, None, Each(us, l.capacity)) > bound;
    }
  }

  lemma {:induction false} WorthNothing(l: Limits, us: seq<int>)
    requires l.capacity == 0
    ensures Worth(l, us) == 0
  {
    if |us| > 1 { WorthNothing(l, us[..|us| - 1]); }
  }

  /** Instants that do not go back and lie in the window are never worth more than the window. */
  lemma InOrderWorth(l: Limits, us: seq<int>, s: int, t: int)
    requires s <= t && NonDecreasing(us) && forall k :: 0 <= k < |us| ==> s <= us[k] <= t
    ensures Worth(l, us) <= Earned(l.rate, t - s)
  {
    WorthAtMost(l, us);
    if us != [] { AscentTelescopes(us); }
    EarnedMonotone(l.rate, Ascent(us), t - s);
  }

  // ---- Expiry --------------------------------------------------------------------------

  /** The store after some calls, with keys expiring on the server's clock. */
  function AfterX(l: Limits, e: Option<Entry>, calls: seq<Call>): Option<Entry>
    requires l.rate >= 1
  {
    if calls == [] then e else Some(Stored(l, AfterX(l, e, calls[..|calls| - 1]), calls[|calls| - 1]))
  }

  function DecisionsX(l: Limits, e: Option<Entry>, calls: seq<Call>): seq<bool>
    requires l.rate >= 1
  {
    if calls == [] then []
    else
      var before, c := calls[..|calls| - 1], calls[|calls| - 1];
      DecisionsX(l, e, before) + [Allowed(l, Live(AfterX(l, e, before), c.clock), c.now)]
  }

  function Bucketed(e: Option<Entry>): Option<Bucket> {
    if e.Some? then Some(e.value.bucket) else None
  }

  function Times(calls: seq<Call>): (times: seq<int>)
    ensures |times| == |calls|
  {
    seq(|calls|, i requires 0 <= i < |calls| => calls[i].now)
  }

  lemma WholeMultiple(d: int, rate: int)
    requires rate >= 1 && -rate < d * rate < rate
    ensures d == 0
  {
    assert d >= 1 ==> d * rate >= rate;
    assert d <= -1 ==> d * rate <= -rate;
  }

  /** The time to live is ten seconds and twice the whole seconds a full bucket takes to earn. */
  lemma TtlExact(l: Limits, q: nat)
    requires l.rate >= 1 && q * l.rate <= l.capacity < (q + 1) * l.rate
    ensures Ttl(l) == 2 * q + 10
  {
    var r := l.capacity / l.rate;
    assert r * l.rate <= l.capacity < r * l.rate + l.rate;
    assert (q - r) * l.rate == q * l.rate - r * l.rate;
    WholeMultiple(q - r, l.rate);
  }

  /** By the end of its time to live a bucket would have refilled completely. */
  lemma TtlCoversRefill(l: Limits, elapsed: int)
    requires l.rate >= 1 && elapsed >= Ttl(l) * 1000
    ensures Earned(l.rate, elapsed) >= l.capacity
  {
    var q := l.capacity / l.rate;
    assert l.capacity == q * l.rate + l.capacity % l.rate;
    assert Ttl(l) * l.rate == 2 * (q * l.rate) + 10 * l.rate;
    assert q * l.rate >= 0;
    assert Ttl(l) * l.rate >= l.capacity;
    assert elapsed * l.rate >= (Ttl(l) * 1000) * l.rate == 1000 * (Ttl(l) * l.rate);
  }

  /** A call can tell that the key is gone exactly when it expired before the bucket was full by the caller's clock. */
  lemma ExpiryVisibleIff(l: Limits, e: Entry, c: Call)
    ensures var gone, kept := Live(Some(e), c.clock), Some(e.bucket);
            (AfterCall(l, gone, c.now), Allowed(l, gone, c.now)) != (AfterCall(l, kept, c.now), Allowed(l, kept, c.now))
            <==> c.clock >= e.expiresAt && e.bucket.tokens + Earned(l.rate, c.now - e.bucket.last) < l.capacity
  {
  }

  /** A hash that has expired was idle for its whole time to live by the caller's clock too. */
  predicate IdleIfExpired(l: Limits, e: Option<Entry>, c: Call)
    requires l.rate >= 1
  {
    e.Some? && c.clock >= e.value.expiresAt ==> c.now - e.value.bucket.last >= Ttl(l) * 1000
  }

  /**
   The caller's clock never falls back against the server's from one call to the next; if
   the hash found at first has expired by the first call, it was idle as long for the caller.
   */
  ghost predicate InStep(l: Limits, e: Option<Entry>, calls: seq<Call>)
    requires l.rate >= 1
  {
    && (calls != [] ==> IdleIfExpired(l, e, calls[0]))
    && forall i :: 0 < i < |calls| ==> calls[i].clock - calls[i - 1].clock <= calls[i].now - calls[i - 1].now
  }

  lemma InStepPrefix(l: Limits, e: Option<Entry>, calls: seq<Call>)
    requires l.rate >= 1 && calls != [] && InStep(l, e, calls)
    ensures InStep(l, e, calls[..|calls| - 1])
  {
    var before := calls[..|calls| - 1];
    forall i | 0 < i < |before| ensures before[i].clock - before[i - 1].clock <= before[i].now - before[i - 1].now {
      assert calls[i].clock - calls[i - 1].clock <= calls[i].now - calls[i - 1].now;
    }
  }

  /** When the hash has expired, the caller too has seen a whole time to live go by. */
  lemma ExpiredIsIdle(l: Limits, e: Option<Entry>, calls: seq<Call>)
    requires l.rate >= 1 && calls != [] && InStep(l, e, calls)
    ensures var found, c := AfterX(l, e, calls[..|calls| - 1]), calls[|calls| - 1];
            IdleIfExpired(l, found, c)
  {
    if |calls| > 1 {
      var c, c' := calls[|calls| - 1], calls[|calls| - 2];
      assert calls[..|calls| - 1][|calls| - 2] == c';
      assert c.clock - c'.clock <= c.now - c'.now;
    }
  }

  lemma NotVisible(l: Limits, found: Option<Entry>, c: Call)
    requires l.rate >= 1 && IdleIfExpired(l, found, c)
    ensures AfterCall(l, Live(found, c.clock), c.now) == AfterCall(l, Bucketed(found), c.now)
    ensures Allowed(l, Live(found, c.clock), c.now) == Allowed(l, Bucketed(found), c.now)
  {
    if found.Some? {
      if c.clock >= found.value.expiresAt { TtlCoversRefill(l, c.now - found.value.bucket.last); }
      ExpiryVisibleIff(l, found.value, c);
    }
  }

  /** With clocks in step, a run in which idle keys expire stores and decides exactly what one that keeps them does. */
  lemma {:induction false} ExpiryInvisible(l: Limits, e: Option<Entry>, calls: seq<Call>)
    requires l.rate >= 1 && InStep(l, e, calls)
    ensures Bucketed(AfterX(l, e, calls)) == After(l, Bucketed(e), Times(calls))
    ensures DecisionsX(l, e, calls) == Decisions(l, Bucketed(e), Times(calls))
    decreases |calls|
  {
    if calls != [] {
      var before, c := calls[..|calls| - 1], calls[|calls| - 1];
      InStepPrefix(l, e, calls);
      ExpiryInvisible(l, e, before);
      assert Times(calls)[..|calls| - 1] == Times(before);
      ExpiredIsIdle(l, e, calls);
      NotVisible(l, AfterX(l, e, before), c);
    }
  }
}
