/** The token bucket over the reals: what any run of calls can be granted. */
module RateLimiters {

  /** Tokens that flow in over a time. */
  function Inflow(elapsed: real, rate: nat): real { elapsed * rate as real }

  lemma InflowAdds(x: real, y: real, rate: nat)
    ensures Inflow(x, rate) + Inflow(y, rate) == Inflow(x + y, rate)
    ensures 0.0 <= x ==> 0.0 <= Inflow(x, rate)
  {
  }

  datatype Bucket = Bucket(tokens: real, lastRefill: real)

  /** A bucket's fixed size and its refill rate per second. */
  datatype Limits = Limits(capacity: nat, rate: nat)
  {
    /** The clock never goes back, but a call from the past would find no time elapsed. */
    function Refilled(b: Bucket, now: real): real {
      var elapsed := if now >= b.lastRefill then now - b.lastRefill else 0.0;
      var tokens := b.tokens + Inflow(elapsed, rate);
      if tokens <= capacity as real then tokens else capacity as real
    }

    predicate Grants(b: Bucket, now: real) { Refilled(b, now) >= 1.0 }

    function After(b: Bucket, now: real): Bucket {
      Bucket(if Grants(b, now) then Refilled(b, now) - 1.0 else Refilled(b, now), now)
    }

    /** The bucket after calls at these times, and how many of them it granted. */
    function Play(b: Bucket, times: seq<real>): Bucket
      decreases |times|
    {
      if times == [] then b else After(Play(b, times[..|times| - 1]), times[|times| - 1])
    }

    function Granted(b: Bucket, times: seq<real>): nat
      decreases |times|
    {
      if times == [] then 0
      else
        var last := |times| - 1;
        Granted(b, times[..last]) + if Grants(Play(b, times[..last]), times[last]) then 1 else 0
    }

    predicate Full(b: Bucket) { b.tokens == capacity as real }

    predicate Within(b: Bucket) { 0.0 <= b.tokens <= capacity as real }
  }

  /** Calls in the order the clock gives them, none before the last refill. */
  predicate Ordered(from: real, times: seq<real>) {
    && (forall i, j :: 0 <= i < j < |times| ==> times[i] <= times[j])
    && (times != [] ==> from <= times[0])
  }

  lemma {:induction false} StaysWithin(l: Limits, b: Bucket, times: seq<real>)
    requires l.Within(b)
    ensures l.Within(l.Play(b, times))
    ensures times != [] ==> l.Play(b, times).lastRefill == times[|times| - 1]
    decreases |times|
  {
    if times != [] {
      var last := |times| - 1;
      StaysWithin(l, b, times[..last]);
      RefillGains(l, l.Play(b, times[..last]), times[last]);
    }
  }

  lemma RefillGains(l: Limits, b: Bucket, now: real)
    ensures b.tokens <= l.capacity as real ==> b.tokens <= l.Refilled(b, now) <= l.capacity as real
    ensures b.lastRefill <= now ==> l.Refilled(b, now) <= b.tokens + Inflow(now - b.lastRefill, l.rate)
  {
    var elapsed := if now >= b.lastRefill then now - b.lastRefill else 0.0;
    InflowAdds(elapsed, 0.0, l.rate);
  }

  /** What a call adds to the grants it takes from the bucket. */
  lemma CallBalances(l: Limits, b: Bucket, times: seq<real>)
    requires times != []
    ensures var last := |times| - 1;
            var before := times[..last];
            l.Granted(b, times) as real + l.Play(b, times).tokens ==
            l.Granted(b, before) as real + l.Refilled(l.Play(b, before), times[last])
  {
  }

  lemma OrderedPrefix(from: real, times: seq<real>)
    requires Ordered(from, times) && times != []
    ensures Ordered(from, times[..|times| - 1])
    ensures |times| > 1 ==> times[|times| - 2] <= times[|times| - 1]
  {
  }

  /** What was granted and what is left never exceed the capacity plus what the refill adds. */
  lemma {:induction false} Balance(l: Limits, b: Bucket, times: seq<real>)
    requires l.Within(b) && times != [] && Ordered(b.lastRefill, times)
    ensures l.Granted(b, times) as real + l.Play(b, times).tokens <=
            l.capacity as real + Inflow(times[|times| - 1] - times[0], l.rate)
    decreases |times|
  {
    var last := |times| - 1;
    var before, now := times[..last], times[last];
    StaysWithin(l, b, before);
    CallBalances(l, b, times);
    OrderedPrefix(b.lastRefill, times);
    RefillGains(l, l.Play(b, before), now);
    if last == 0 {
      assert times[last] - times[0] == 0.0;
      InflowAdds(0.0, 0.0, l.rate);
    } else {
      Balance(l, b, before);
      var previous := times[last - 1];
      assert l.Play(b, before).lastRefill == previous;
      InflowAdds(previous - times[0], now - previous, l.rate);
      assert (previous - times[0]) + (now - previous) == now - times[0];
    }
  }

  lemma {:induction false} PlayAppend(l: Limits, b: Bucket, first: seq<real>, rest: seq<real>)
    ensures l.Play(b, first + rest) == l.Play(l.Play(b, first), rest)
    ensures l.Granted(b, first + rest) == l.Granted(b, first) + l.Granted(l.Play(b, first), rest)
    decreases |rest|
  {
    if rest == [] {
      assert first + rest == first;
    } else {
      var last := |rest| - 1;
      assert (first + rest)[..|first + rest| - 1] == first + rest[..last];
      PlayAppend(l, b, first, rest[..last]);
    }
  }

  lemma OrderedSuffix(from: real, before: seq<real>, window: seq<real>)
    requires Ordered(from, before + window) && window != []
    ensures Ordered(if before == [] then from else before[|before| - 1], window)
  {
    var all := before + window;
    forall i, j | 0 <= i < j < |window| ensures window[i] <= window[j] {
      assert all[|before| + i] <= all[|before| + j];
    }
    if before == [] { assert all == window; } else { assert all[|before| - 1] <= all[|before|]; }
  }

  /**
   In any window of any run, the calls granted number at most the capacity plus the refill over the
   time from the window's first call to its last.
   */
  lemma WindowBound(l: Limits, b: Bucket, before: seq<real>, window: seq<real>)
    requires l.Within(b) && window != [] && Ordered(b.lastRefill, before + window)
    ensures (l.Granted(b, before + window) - l.Granted(b, before)) as real <=
            l.capacity as real + Inflow(window[|window| - 1] - window[0], l.rate)
  {
    PlayAppend(l, b, before, window);
    StaysWithin(l, b, before);
    OrderedSuffix(b.lastRefill, before, window);
    StaysWithin(l, l.Play(b, before), window);
    Balance(l, l.Play(b, before), window);
  }

  /** Each call comes at least one refill interval after the one before. */
  predicate Spaced(l: Limits, times: seq<real>) {
    forall i :: 0 < i < |times| ==> Inflow(times[i] - times[i - 1], l.rate) >= 1.0
  }

  /** A bucket that has seen a whole refill interval, or is full, has a token. */
  lemma HasToken(l: Limits, b: Bucket, now: real)
    requires l.capacity >= 1 && l.Within(b) && b.lastRefill <= now
    requires l.Full(b) || Inflow(now - b.lastRefill, l.rate) >= 1.0
    ensures l.Grants(b, now)
  {
    RefillGains(l, b, now);
  }

  /** A full bucket of at least one token never refuses calls spaced a refill interval apart. */
  lemma {:induction false} SpacedCallsPass(l: Limits, b: Bucket, times: seq<real>)
    requires l.Full(b) && l.capacity >= 1 && Ordered(b.lastRefill, times) && Spaced(l, times)
    ensures l.Granted(b, times) == |times|
    decreases |times|
  {
    if times != [] {
      var last := |times| - 1;
      var before := times[..last];
      OrderedPrefix(b.lastRefill, times);
      assert Spaced(l, before);
      SpacedCallsPass(l, b, before);
      StaysWithin(l, b, before);
      HasToken(l, l.Play(b, before), times[last]);
    }
  }

  /** A call's whole effect on the balance, where the refill does not reach the capacity. */
  lemma UncappedCall(l: Limits, b: Bucket, now: real)
    requires b.lastRefill <= now && b.tokens + Inflow(now - b.lastRefill, l.rate) <= l.capacity as real
    ensures (if l.Grants(b, now) then 1.0 else 0.0) + l.After(b, now).tokens ==
            b.tokens + Inflow(now - b.lastRefill, l.rate)
  {
  }

  /**
   While the bucket does not fill up, nothing is lost: what was granted and what is left is what there
   was and what the rate brought in, so a refused call costs nothing.
   */
  lemma {:induction false} UncappedBalance(l: Limits, b: Bucket, times: seq<real>)
    requires l.Within(b) && times != [] && Ordered(b.lastRefill, times)
    requires b.tokens + Inflow(times[|times| - 1] - b.lastRefill, l.rate) <= l.capacity as real
    ensures l.Granted(b, times) as real + l.Play(b, times).tokens ==
            b.tokens + Inflow(times[|times| - 1] - b.lastRefill, l.rate)
    decreases |times|
  {
    var last := |times| - 1;
    var before, now := times[..last], times[last];
    OrderedPrefix(b.lastRefill, times);
    if last == 0 {
      UncappedCall(l, b, now);
    } else {
      var previous := times[last - 1];
      StaysWithin(l, b, before);
      InflowAdds(previous - b.lastRefill, now - previous, l.rate);
      assert (previous - b.lastRefill) + (now - previous) == now - b.lastRefill;
      InflowAdds(now - previous, 0.0, l.rate);
      UncappedBalance(l, b, before);
      UncappedCall(l, l.Play(b, before), now);
    }
  }

  /**
   After an idle time in which the whole capacity flows in, a burst of as many calls as the capacity is
   granted in full, however empty the bucket was and however fast the calls come.
   */
  lemma {:induction false} IdleThenBurst(l: Limits, b: Bucket, times: seq<real>)
    requires l.Within(b) && Ordered(b.lastRefill, times) && |times| <= l.capacity
    requires times != [] ==> Inflow(times[0] - b.lastRefill, l.rate) >= l.capacity as real
    ensures l.Granted(b, times) == |times|
    ensures times != [] ==> l.Play(b, times).tokens >= (l.capacity - |times|) as real
    decreases |times|
  {
    if times != [] {
      var last := |times| - 1;
      OrderedPrefix(b.lastRefill, times);
      IdleThenBurst(l, b, times[..last]);
      StaysWithin(l, b, times[..last]);
      RefillGains(l, l.Play(b, times[..last]), times[last]);
      if last == 0 { assert l.Refilled(b, times[0]) == l.capacity as real; }
    }
  }

  class RateLimiter {
    const limits: Limits
    var state: Bucket

    ghost predicate Valid()
      reads this
    {
      limits.Within(state)
    }

    constructor (capacity: nat, rate: nat, now: real)
      ensures Valid() && limits == Limits(capacity, rate) && limits.Full(state) && state.lastRefill == now
    {
      limits := Limits(capacity, rate);
      state := Bucket(capacity as real, now);
    }

    method TryAcquire(now: real) returns (ok: bool)
      requires Valid()
      modifies this
      ensures Valid() && state == limits.After(old(state), now) && ok == limits.Grants(old(state), now)
    {
      RefillGains(limits, state, now);
      var elapsed := if now >= state.lastRefill then now - state.lastRefill else 0.0;
      var tokens := state.tokens + Inflow(elapsed, limits.rate);
      if tokens > limits.capacity as real { tokens := limits.capacity as real; }
      ok := tokens >= 1.0;
      if ok { tokens := tokens - 1.0; }
      state := Bucket(tokens, now);
    }

    /** A series of calls, one after another: what a caller can get out of the limiter in that time. */
    method TryAll(times: seq<real>) returns (granted: nat)
      requires Valid()
      modifies this
      ensures Valid() && state == limits.Play(old(state), times) && granted == limits.Granted(old(state), times)
      ensures times != [] && Ordered(old(state).lastRefill, times) ==>
                granted as real <= limits.capacity as real + Inflow(times[|times| - 1] - times[0], limits.rate)
      ensures limits.Full(old(state)) && limits.capacity >= 1 ==>
                Ordered(old(state).lastRefill, times) && Spaced(limits, times) ==> granted == |times|
    {
      granted := 0;
      var i := 0;
      while i < |times|
        invariant i <= |times| && Valid()
        invariant state == limits.Play(old(state), times[..i]) && granted == limits.Granted(old(state), times[..i])
      {
        assert times[..i + 1][..i] == times[..i];
        var ok := TryAcquire(times[i]);
        if ok { granted := granted + 1; }
        i := i + 1;
      }
      assert times[..i] == times;
      if Ordered(old(state).lastRefill, times) {
        assert [] + times == times;
        if times != [] { WindowBound(limits, old(state), [], times); }
        if limits.Full(old(state)) && limits.capacity >= 1 && Spaced(limits, times) {
          SpacedCallsPass(limits, old(state), times);
        }
      }
    }
  }
}
