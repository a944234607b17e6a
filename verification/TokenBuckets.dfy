/** Token buckets as values: refill, waiting and admission, and what holds over every run of them.

    Tokens and rates are reals. Every event carries the reading of one monotone clock. */
module TokenBuckets {
  import opened Instants
  import opened Options

  datatype Bucket = Bucket(rate: real, capacity: real, tokens: real, last: Time, pausedUntil: Time, started: bool)

  const MAX_DURATION: Duration := 0x7fff_ffff_ffff_ffff
  const MIN_DURATION: Duration := -0x8000_0000_0000_0000

  function Seconds(d: Duration): real { d as real / 1.0e9 }

  /** The difference of two instants saturates at the ends of the duration type. */
  function Sub(a: Time, b: Time): Duration { Max(MIN_DURATION, Min(MAX_DURATION, a - b)) }

  function MinReal(a: real, b: real): real { if a <= b then a else b }

  function Ceiling(x: real): (r: int)
    ensures r as real - 1.0 < x <= r as real
  {
    -((-x).Floor)
  }

  function Full(rate: real, burst: int): Bucket { Bucket(rate, burst as real, burst as real, 0, 0, false) }

  // ---- One bucket -----------------------------------------------------------------------

  /** Brings the tokens up to date; the first use only starts the clock. */
  function Refilled(b: Bucket, now: Time): Bucket
  {
    var last := if b.started then b.last else now;
    b.(tokens := MinReal(b.capacity, b.tokens + Seconds(now - last) * b.rate), last := now, started := true)
  }

  /** The refill of one token would take longer than a duration can say. In float64 no value lies
      strictly between the longest duration and its conversion, so the comparison is the source's. */
  predicate NeverRefills(b: Bucket)
    requires b.rate > 0.0
  {
    b.tokens < 1.0 && (1.0 - b.tokens) / b.rate * 1.0e9 > MAX_DURATION as real
  }

  function Wait(b: Bucket, now: Time): Duration
    requires b.rate > 0.0
  {
    var pause := Max(0, Sub(b.pausedUntil, now));
    if b.tokens >= 1.0 then pause
    else if NeverRefills(b) then Max(pause, MAX_DURATION)
    else Max(pause, Ceiling((1.0 - b.tokens) / b.rate * 1.0e9))
  }

  function Tried(b: Bucket, now: Time, admitted: bool): Bucket
  {
    var r := Refilled(b, now);
    if admitted then r.(tokens := r.tokens - 1.0) else r
  }

  function Clamped(b: Bucket, rate: real): Bucket { if b.rate <= rate then b else b.(rate := rate) }

  function Paused(b: Bucket, now: Time, delay: Duration): Bucket
  {
    if delay > 0 && now + delay > b.pausedUntil then b.(pausedUntil := now + delay) else b
  }

  /** What every bucket satisfies once the clock has reached t. */
  predicate Sound(b: Bucket, t: Time)
  {
    && b.rate > 0.0 && 0.0 <= b.tokens <= b.capacity && t >= 0
    && (b.started ==> b.last <= t)
    && b.pausedUntil <= t + MAX_DURATION
  }

  /** A bucket has no wait exactly when a token is there and its pause is over. */
  lemma NoWaitExactlyWhen(b: Bucket, now: Time)
    requires b.rate > 0.0
    ensures Wait(b, now) >= 0
    ensures Wait(b, now) == 0 <==> b.tokens >= 1.0 && b.pausedUntil <= now
  {
    if b.tokens < 1.0 {
      ProductPositive((1.0 - b.tokens) / b.rate, 1.0e9);
    }
  }

  lemma ProductPositive(a: real, b: real)
    requires a > 0.0 && b > 0.0
    ensures a * b > 0.0
  {
  }

  lemma ProductMonotone(a: real, b: real, c: real)
    requires a <= b && c >= 0.0
    ensures a * c <= b * c
  {
  }

  /** Tokens at a later instant: no fewer, and at most the rate times the time more. */
  lemma RefillBounds(b: Bucket, s: Time, t: Time)
    requires Sound(b, s) && s <= t
    ensures b.rate > 0.0 && 0.0 <= b.tokens <= Refilled(b, s).tokens <= Refilled(b, t).tokens <= b.capacity
    ensures Refilled(b, t).tokens <= Refilled(b, s).tokens + b.rate * Seconds(t - s)
  {
    RefilledTokens(b, s, s);
    RefilledTokens(b, s, t);
    ProductMonotone(0.0, Seconds(t - s), b.rate);
    if b.started {
      ProductMonotone(0.0, Seconds(s - b.last), b.rate);
      Spread(Seconds(s - b.last), Seconds(t - s), Seconds(t - b.last), b.rate);
    }
    hide Refilled, Seconds;
    var d := b.rate * Seconds(t - s);
    var x, y := if b.started then Seconds(s - b.last) * b.rate else 0.0, if b.started then Seconds(t - b.last) * b.rate else d;
    Capped(b.tokens, b.capacity, x, y, d);
    hide MinReal;
    if !b.started {
      CappedAlready(b.tokens, b.capacity);
    }
  }

  lemma CappedAlready(tokens: real, capacity: real)
    requires tokens <= capacity
    ensures MinReal(capacity, tokens) == tokens
  {
  }

  lemma RefilledTokens(b: Bucket, s: Time, t: Time)
    ensures b.started ==> Refilled(b, t).tokens == MinReal(b.capacity, b.tokens + Seconds(t - b.last) * b.rate)
    ensures !b.started ==> Refilled(b, t).tokens == MinReal(b.capacity, b.tokens)
  {
    assert Seconds(0) * b.rate == 0.0;
  }

  lemma Spread(a: real, b: real, c: real, rate: real)
    requires c == a + b
    ensures c * rate == a * rate + rate * b
  {
  }

  /** Growth that a ceiling cuts off. */
  lemma Capped(tokens: real, capacity: real, x: real, y: real, d: real)
    requires 0.0 <= tokens <= capacity && x >= 0.0 && d >= 0.0 && y == x + d
    ensures tokens <= MinReal(capacity, tokens + x) <= MinReal(capacity, tokens + y) <= capacity
    ensures MinReal(capacity, tokens + y) <= MinReal(capacity, tokens + x) + d
  {
  }

  // ---- Several buckets at once ----------------------------------------------------------

  predicate Positive(bs: seq<Option<Bucket>>)
  {
    forall i :: 0 <= i < |bs| && bs[i].Some? ==> bs[i].value.rate > 0.0
  }

  ghost predicate SoundSeq(bs: seq<Option<Bucket>>, t: Time)
  {
    Positive(bs) && forall i :: 0 <= i < |bs| && bs[i].Some? ==> Sound(bs[i].value, t)
  }

  /** The longest wait over the buckets that are present. */
  function Delay(bs: seq<Option<Bucket>>, now: Time): Duration
    requires Positive(bs)
  {
    if |bs| == 0 then 0 else
      var last := bs[|bs| - 1];
      var before := Delay(bs[..|bs| - 1], now);
      if last.None? then before else Max(before, Wait(Refilled(last.value, now), now))
  }

  lemma {:induction false} DelayIsLongestWait(bs: seq<Option<Bucket>>, now: Time)
    requires Positive(bs)
    ensures Delay(bs, now) >= 0
    ensures forall i :: 0 <= i < |bs| && bs[i].Some? ==> Wait(Refilled(bs[i].value, now), now) <= Delay(bs, now)
    ensures Delay(bs, now) == 0 ||
      exists i :: 0 <= i < |bs| && bs[i].Some? && Wait(Refilled(bs[i].value, now), now) == Delay(bs, now)
  {
    if |bs| > 0 {
      var rest := bs[..|bs| - 1];
      DelayIsLongestWait(rest, now);
      assert forall i :: 0 <= i < |rest| ==> rest[i] == bs[i];
    }
  }

  /** Every bucket has a token and none is paused. */
  ghost predicate AllReady(bs: seq<Option<Bucket>>, now: Time)
  {
    forall i :: 0 <= i < |bs| && bs[i].Some? ==>
      Refilled(bs[i].value, now).tokens >= 1.0 && bs[i].value.pausedUntil <= now
  }

  lemma AdmitsExactlyWhen(bs: seq<Option<Bucket>>, now: Time)
    requires Positive(bs)
    ensures Delay(bs, now) <= 0 <==> AllReady(bs, now)
  {
    DelayIsLongestWait(bs, now);
    forall i | 0 <= i < |bs| && bs[i].Some?
      ensures Wait(Refilled(bs[i].value, now), now) == 0 <==>
        Refilled(bs[i].value, now).tokens >= 1.0 && bs[i].value.pausedUntil <= now
      ensures Wait(Refilled(bs[i].value, now), now) >= 0
    {
      NoWaitExactlyWhen(Refilled(bs[i].value, now), now);
    }
  }

  function TriedAll(bs: seq<Option<Bucket>>, now: Time, admitted: bool): (r: seq<Option<Bucket>>)
    ensures |r| == |bs|
  {
    seq(|bs|, i requires 0 <= i < |bs| => if bs[i].None? then None else Some(Tried(bs[i].value, now, admitted)))
  }

  // ---- Sleeping for the computed delay --------------------------------------------------

  /** Buckets that a sleep of the computed delay can satisfy. */
  predicate Refillable(bs: seq<Option<Bucket>>, now: Time)
    requires Positive(bs)
  {
    forall i :: 0 <= i < |bs| && bs[i].Some? ==> bs[i].value.capacity >= 1.0 && !NeverRefills(Refilled(bs[i].value, now))
  }

  /** The tokens after the sleep, in terms of the shortage before it. */
  lemma TokensAfterSleep(b: Bucket, now: Time, d: Duration)
    requires Sound(b, now) && d >= 0
    ensures var r := Refilled(b, now);
      && r.tokens <= r.capacity
      && Refilled(Tried(b, now, false), now + d).tokens == MinReal(b.capacity, r.tokens + Seconds(d) * b.rate)
      && (r.tokens >= 1.0 ==> Refilled(Tried(b, now, false), now + d).tokens >= 1.0)
  {
    RefillBounds(b, now, now);
    ProductMonotone(0.0, Seconds(d), b.rate);
  }

  /** Sleeping d nanoseconds makes up for the shortage exactly when the computed time is at most d. */
  lemma EnoughExactlyWhen(short: real, rate: real, d: Duration)
    requires rate > 0.0
    ensures Seconds(d) * rate >= short <==> d as real >= short / rate * 1.0e9
  {
    var needed := short / rate * 1.0e9;
    Cancel(short, rate);
    assert Seconds(d) * rate == d as real * rate / 1.0e9;
    if d as real >= needed {
      ProductMonotone(needed, d as real, rate);
    } else {
      StrictProduct(d as real, needed, rate);
    }
  }

  lemma OneBucketAfterSleep(b: Bucket, now: Time, d: Duration)
    requires Sound(b, now) && d >= Wait(Refilled(b, now), now)
    ensures b.pausedUntil <= now + d
    ensures b.capacity >= 1.0 && !NeverRefills(Refilled(b, now)) ==> Refilled(Tried(b, now, false), now + d).tokens >= 1.0
    ensures b.capacity < 1.0 ==> Refilled(Tried(b, now, false), now + d).tokens < 1.0
    ensures NeverRefills(Refilled(b, now)) && d <= MAX_DURATION ==> Refilled(Tried(b, now, false), now + d).tokens < 1.0
  {
    var r := Refilled(b, now);
    NoWaitExactlyWhen(r, now);
    WaitCoversPause(r, now);
    TokensAfterSleep(b, now, d);
    EnoughExactlyWhen(1.0 - r.tokens, r.rate, d);
    hide Refilled, Tried, Sound, Seconds;
  }

  /** Any shorter sleep leaves the bucket short of a token or paused. */
  lemma OneBucketTooEarly(b: Bucket, now: Time, d: Duration)
    requires Sound(b, now) && 0 <= d < Wait(Refilled(b, now), now)
    ensures b.pausedUntil > now + d || Refilled(Tried(b, now, false), now + d).tokens < 1.0
  {
    var r := Refilled(b, now);
    WaitAtMost(r, now);
    if b.pausedUntil <= now + d {
      PauseOver(r, now, d);
      if NeverRefills(r) {
        NeverInTime(b, now, d);
      } else {
        TokensAfterSleep(b, now, d);
        EnoughExactlyWhen(1.0 - r.tokens, r.rate, d);
      }
      hide Refilled, Tried, Sound, Seconds;
    }
  }

  lemma PauseOver(b: Bucket, now: Time, d: Duration)
    requires b.rate > 0.0 && 0 <= d < Wait(b, now) && b.pausedUntil <= now + d
    ensures b.tokens < 1.0
    ensures !NeverRefills(b) ==> d as real < (1.0 - b.tokens) / b.rate * 1.0e9
  {
  }

  lemma NeverInTime(b: Bucket, now: Time, d: Duration)
    requires Sound(b, now) && NeverRefills(Refilled(b, now)) && 0 <= d <= MAX_DURATION
    ensures Refilled(Tried(b, now, false), now + d).tokens < 1.0
  {
    var r := Refilled(b, now);
    TokensAfterSleep(b, now, d);
    EnoughExactlyWhen(1.0 - r.tokens, r.rate, d);
  }

  lemma WaitCoversPause(b: Bucket, now: Time)
    requires b.rate > 0.0 && b.pausedUntil <= now + MAX_DURATION
    ensures b.pausedUntil <= now + Wait(b, now)
  {
  }

  lemma Cancel(a: real, b: real)
    requires b > 0.0
    ensures a / b * 1.0e9 * b == a * 1.0e9
  {
    var q := a / b;
    assert q * b == a;
    assert q * 1.0e9 * b == q * b * 1.0e9;
  }

  lemma StrictProduct(a: real, b: real, c: real)
    requires a < b && c > 0.0
    ensures a * c < b * c
  {
  }

  /** A failed attempt followed by an undisturbed sleep of at least the delay it computed is admitted
      when every bucket can ever hold a token and refill it in time. */
  lemma SleepAdmits(bs: seq<Option<Bucket>>, now: Time, d: Duration)
    requires SoundSeq(bs, now)
    requires Refillable(bs, now) && d >= Delay(bs, now) > 0
    ensures Delay(TriedAll(bs, now, false), now + d) <= 0
  {
    var slept := TriedAll(bs, now, false);
    DelayIsLongestWait(bs, now);
    forall i | 0 <= i < |slept| && slept[i].Some?
      ensures Refilled(slept[i].value, now + d).tokens >= 1.0 && slept[i].value.pausedUntil <= now + d
    {
      OneBucketAfterSleep(bs[i].value, now, d);
    }
    AdmitsExactlyWhen(slept, now + d);
  }

  /** The computed delay is the least: after any shorter undisturbed sleep the attempt has to wait again. */
  lemma DelayIsLeast(bs: seq<Option<Bucket>>, now: Time, d: Duration)
    requires SoundSeq(bs, now) && 0 <= d < Delay(bs, now)
    ensures Delay(TriedAll(bs, now, false), now + d) > 0
  {
    var slept := TriedAll(bs, now, false);
    DelayIsLongestWait(bs, now);
    var i :| 0 <= i < |bs| && bs[i].Some? && Wait(Refilled(bs[i].value, now), now) == Delay(bs, now);
    OneBucketTooEarly(bs[i].value, now, d);
    assert slept[i].Some? && slept[i].value.pausedUntil == bs[i].value.pausedUntil;
    AdmitsExactlyWhen(slept, now + d);
  }

  /** For a sleep of exactly the computed delay, that condition is also necessary. */
  lemma SleepAdmitsExactlyWhen(bs: seq<Option<Bucket>>, now: Time)
    requires SoundSeq(bs, now)
    requires Delay(bs, now) > 0
    ensures Delay(TriedAll(bs, now, false), now + Delay(bs, now)) <= 0 <==> Refillable(bs, now)
  {
    var d := Delay(bs, now);
    if Refillable(bs, now) {
      SleepAdmits(bs, now, d);
    } else {
      var slept := TriedAll(bs, now, false);
      DelayIsLongestWait(bs, now);
      var i :| 0 <= i < |bs| && bs[i].Some? && !(bs[i].value.capacity >= 1.0 && !NeverRefills(Refilled(bs[i].value, now)));
      DelayAtMost(bs, now);
      OneBucketAfterSleep(bs[i].value, now, d);
      assert slept[i].Some? && Refilled(slept[i].value, now + d).tokens < 1.0;
      AdmitsExactlyWhen(slept, now + d);
    }
  }

  lemma DelayAtMost(bs: seq<Option<Bucket>>, now: Time)
    requires Positive(bs)
    ensures Delay(bs, now) <= MAX_DURATION
  {
    DelayIsLongestWait(bs, now);
    forall i | 0 <= i < |bs| && bs[i].Some? ensures Wait(Refilled(bs[i].value, now), now) <= MAX_DURATION {
      WaitAtMost(Refilled(bs[i].value, now), now);
    }
  }

  lemma WaitAtMost(b: Bucket, now: Time)
    requires b.rate > 0.0
    ensures Wait(b, now) <= MAX_DURATION
  {
  }

  // ---- Runs -----------------------------------------------------------------------------

  /** A bucket's name: a class, the total, or one metered resource. */
  type Id(==) = string

  type Buckets = map<Id, Bucket>

  datatype Event =
    | Attempt(now: Time, ids: seq<Option<Id>>)
    | Clamp(now: Time, id: Id, rate: real)
    | Pause(now: Time, id: Id, delay: Duration)

  ghost predicate Named(s: Buckets, e: Event)
  {
    match e
    case Attempt(_, ids) => forall i :: 0 <= i < |ids| && ids[i].Some? ==> ids[i].value in s
    case Clamp(_, id, rate) => id in s && rate > 0.0
    case Pause(_, id, delay) => id in s && delay <= MAX_DURATION
  }

  function Chosen(s: Buckets, ids: seq<Option<Id>>): (r: seq<Option<Bucket>>)
    requires forall i :: 0 <= i < |ids| && ids[i].Some? ==> ids[i].value in s
    ensures |r| == |ids|
  {
    seq(|ids|, i requires 0 <= i < |ids| => if ids[i].None? then None else Some(s[ids[i].value]))
  }

  ghost predicate AllSound(s: Buckets, t: Time)
  {
    forall id :: id in s ==> Sound(s[id], t)
  }

  ghost function Admitted(s: Buckets, e: Event): bool
    requires AllSound(s, e.now) && Named(s, e)
  {
    e.Attempt? && Delay(Chosen(s, e.ids), e.now) <= 0
  }

  ghost function Step(s: Buckets, e: Event): (r: Buckets)
    requires AllSound(s, e.now) && Named(s, e)
    ensures r.Keys == s.Keys
  {
    match e
    case Attempt(now, ids) =>
      map id | id in s :: if Some(id) in ids then Tried(s[id], now, Admitted(s, e)) else s[id]
    case Clamp(_, id, rate) => s[id := Clamped(s[id], rate)]
    case Pause(now, id, delay) => s[id := Paused(s[id], now, delay)]
  }

  ghost function Takes(s: Buckets, e: Event, id: Id): nat
    requires AllSound(s, e.now) && Named(s, e)
  {
    if Admitted(s, e) && Some(id) in e.ids then 1 else 0
  }

  /** What an event may do to one bucket, and its effect on the tokens the bucket can still give. */
  lemma StepKeeps(s: Buckets, e: Event, id: Id, from: Time)
    requires AllSound(s, from) && from <= e.now && Named(s, e) && id in s
    ensures AllSound(s, e.now)
    ensures Sound(Step(s, e)[id], e.now)
    ensures Evolves(s[id], Step(s, e)[id])
    ensures Takes(s, e, id) as real + Refilled(Step(s, e)[id], e.now).tokens <= Refilled(s[id], e.now).tokens
  {
    hide Refilled, Sound, Seconds, Wait, NeverRefills, Delay, Evolves, Tried;
    LaterSound(s[id], from, e.now);
    forall other | other in s ensures Sound(s[other], e.now) {
      LaterSound(s[other], from, e.now);
    }
    if e.Attempt? && Some(id) in e.ids {
      var i :| 0 <= i < |e.ids| && e.ids[i] == Some(id);
      var bs := Chosen(s, e.ids);
      assert bs[i] == Some(s[id]);
      ChosenPositive(s, e.ids, e.now);
      AdmitsExactlyWhen(bs, e.now);
      TriedFacts(s[id], e.now, Admitted(s, e));
    } else if e.Clamp? && e.id == id {
      ClampLowers(s[id], e.rate, e.now);
    } else if e.Pause? && e.id == id {
      PausedFacts(s[id], e.now, e.delay);
    }
  }

  lemma ChosenPositive(s: Buckets, ids: seq<Option<Id>>, now: Time)
    requires AllSound(s, now) && forall i :: 0 <= i < |ids| && ids[i].Some? ==> ids[i].value in s
    ensures Positive(Chosen(s, ids))
  {
  }

  lemma LaterSound(b: Bucket, from: Time, now: Time)
    requires Sound(b, from) && from <= now
    ensures Sound(b, now) && Evolves(b, b)
  {
  }

  lemma TriedFacts(b: Bucket, now: Time, admitted: bool)
    requires Sound(b, now) && (admitted ==> Refilled(b, now).tokens >= 1.0)
    ensures Sound(Tried(b, now, admitted), now) && Evolves(b, Tried(b, now, admitted))
    ensures (if admitted then 1.0 else 0.0) + Refilled(Tried(b, now, admitted), now).tokens <= Refilled(b, now).tokens
  {
    RefillBounds(b, now, now);
    var r := Tried(b, now, admitted);
    assert Seconds(0) * r.rate == 0.0;
  }

  lemma PausedFacts(b: Bucket, now: Time, delay: Duration)
    requires Sound(b, now) && delay <= MAX_DURATION
    ensures Sound(Paused(b, now, delay), now) && Evolves(b, Paused(b, now, delay))
    ensures Refilled(Paused(b, now, delay), now).tokens == Refilled(b, now).tokens
  {
  }

  ghost predicate Evolves(a: Bucket, b: Bucket)
  {
    b.capacity == a.capacity && b.rate <= a.rate && b.pausedUntil >= a.pausedUntil && (a.started ==> b.started)
  }

  lemma ClampLowers(b: Bucket, rate: real, now: Time)
    requires Sound(b, now) && rate > 0.0
    ensures Sound(Clamped(b, rate), now) && Evolves(b, Clamped(b, rate))
    ensures Refilled(Clamped(b, rate), now).tokens <= Refilled(b, now).tokens
  {
    var c := Clamped(b, rate);
    RefilledTokens(b, now, now);
    RefilledTokens(c, now, now);
    if b.started {
      SlowerGrowth(b.capacity, b.tokens, c.rate, b.rate, Seconds(now - b.last));
    }
    hide Refilled, Seconds, MinReal;
  }

  lemma SlowerGrowth(capacity: real, tokens: real, slow: real, rate: real, seconds: real)
    requires slow <= rate && seconds >= 0.0
    ensures MinReal(capacity, tokens + seconds * slow) <= MinReal(capacity, tokens + seconds * rate)
  {
    ProductMonotone(slow, rate, seconds);
    var x, y := seconds * slow, seconds * rate;
    assert x <= y;
  }

  lemma StepSound(s: Buckets, e: Event, from: Time)
    requires AllSound(s, from) && from <= e.now && Named(s, e)
    ensures AllSound(s, e.now) && AllSound(Step(s, e), e.now)
  {
    forall id | id in s ensures Sound(Step(s, e)[id], e.now) {
      StepKeeps(s, e, id, from);
    }
  }

  /** The events name existing buckets and their clock readings never go back. */
  ghost predicate Ordered(s: Buckets, events: seq<Event>, from: Time, to: Time)
  {
    if |events| == 0 then from <= to
    else from <= events[0].now && Named(s, events[0]) && Ordered(s, events[1..], events[0].now, to)
  }

  lemma {:induction false} OrderedByNames(s: Buckets, t: Buckets, events: seq<Event>, from: Time, to: Time)
    requires s.Keys == t.Keys && Ordered(s, events, from, to)
    ensures Ordered(t, events, from, to) && from <= to
  {
    if |events| > 0 {
      OrderedByNames(s, t, events[1..], events[0].now, to);
    }
  }

  ghost function Run(s: Buckets, events: seq<Event>, from: Time, to: Time): (r: Buckets)
    requires AllSound(s, from) && Ordered(s, events, from, to)
    ensures r.Keys == s.Keys && AllSound(r, to)
    decreases |events|
  {
    OrderedByNames(s, s, events, from, to);
    if |events| == 0 then s else
      StepSound(s, events[0], from);
      OrderedByNames(s, Step(s, events[0]), events[1..], events[0].now, to);
      Run(Step(s, events[0]), events[1..], events[0].now, to)
  }

  /** How many admissions take a token from the bucket. */
  ghost function Taken(s: Buckets, events: seq<Event>, from: Time, to: Time, id: Id): nat
    requires AllSound(s, from) && Ordered(s, events, from, to)
    decreases |events|
  {
    if |events| == 0 then 0 else
      StepSound(s, events[0], from);
      OrderedByNames(s, Step(s, events[0]), events[1..], events[0].now, to);
      Takes(s, events[0], id) + Taken(Step(s, events[0]), events[1..], events[0].now, to, id)
  }

  lemma {:induction false} TakenPlusLeft(s: Buckets, events: seq<Event>, from: Time, to: Time, id: Id)
    requires AllSound(s, from) && Ordered(s, events, from, to) && id in s
    ensures Taken(s, events, from, to, id) as real <= Refilled(s[id], from).tokens + s[id].rate * Seconds(to - from)
    decreases |events|
  {
    hide Refilled, Sound, Step, Takes, Seconds;
    OrderedByNames(s, s, events, from, to);
    RefillBounds(s[id], from, to);
    SpanOfTime(s[id].rate, from, from, to);
    if |events| > 0 {
      var e := events[0];
      StepSound(s, e, from);
      var t := Step(s, e);
      StepKeeps(s, e, id, from);
      RefillBounds(s[id], from, e.now);
      OrderedByNames(s, t, events[1..], e.now, to);
      TakenPlusLeft(t, events[1..], e.now, to, id);
      SpanOfTime(s[id].rate, from, e.now, to);
      LowerRate(t[id].rate, s[id].rate, e.now, to);
    }
  }

  lemma SpanOfTime(rate: real, s: Time, m: Time, t: Time)
    requires s <= m <= t && rate > 0.0
    ensures rate * Seconds(t - s) == rate * Seconds(m - s) + rate * Seconds(t - m) && rate * Seconds(t - s) >= 0.0
  {
    assert Seconds(t - s) == Seconds(m - s) + Seconds(t - m);
    ProductMonotone(0.0, Seconds(t - s), rate);
  }

  lemma LowerRate(low: real, rate: real, s: Time, t: Time)
    requires s <= t && low <= rate
    ensures low * Seconds(t - s) <= rate * Seconds(t - s)
  {
    ProductMonotone(low, rate, Seconds(t - s));
  }

  /** After any run from full, unused buckets, the admissions of the next interval take at most the
      burst plus the rate at its start times its length from each bucket. */
  lemma RateBound(initial: Buckets, before: seq<Event>, events: seq<Event>, s: Time, t: Time, id: Id, rate: real,
                  burst: int)
    requires AllSound(initial, 0) && Ordered(initial, before, 0, s) && Ordered(initial, events, s, t)
    requires id in initial && initial[id] == Full(rate, burst)
    ensures Ordered(Run(initial, before, 0, s), events, s, t)
    ensures var reached := Run(initial, before, 0, s);
      Taken(reached, events, s, t, id) as real <= burst as real + reached[id].rate * Seconds(t - s)
  {
    hide Run, Ordered, Taken, Refilled, Seconds;
    var reached := Run(initial, before, 0, s);
    OrderedByNames(initial, reached, events, s, t);
    TakenPlusLeft(reached, events, s, t, id);
    RunEvolves(initial, before, 0, s, id);
    RefillBounds(reached[id], s, s);
  }

  /** Over any run a bucket's rate only falls and its pause only extends. */
  lemma {:induction false} RunEvolves(s: Buckets, events: seq<Event>, from: Time, to: Time, id: Id)
    requires AllSound(s, from) && Ordered(s, events, from, to) && id in s
    ensures Evolves(s[id], Run(s, events, from, to)[id])
    decreases |events|
  {
    if |events| > 0 {
      StepSound(s, events[0], from);
      StepKeeps(s, events[0], id, from);
      OrderedByNames(s, Step(s, events[0]), events[1..], events[0].now, to);
      RunEvolves(Step(s, events[0]), events[1..], events[0].now, to, id);
    }
  }

  /** After a pause, whatever happens next, no admission uses the bucket before the pause is over. */
  lemma PauseHolds(s: Buckets, from: Time, pause: Event, between: seq<Event>, to: Time, attempt: Event)
    requires AllSound(s, from) && pause.Pause? && from <= pause.now && Named(s, pause) && pause.delay > 0
    requires Ordered(s, between, pause.now, to) && attempt.Attempt? && to <= attempt.now && Named(s, attempt)
    requires Some(pause.id) in attempt.ids
    ensures AllSound(s, pause.now) && AllSound(Step(s, pause), pause.now) && Ordered(Step(s, pause), between, pause.now, to)
    ensures var later := Run(Step(s, pause), between, pause.now, to);
      && AllSound(later, attempt.now)
      && (Admitted(later, attempt) ==> attempt.now >= pause.now + pause.delay)
  {
    StepSound(s, pause, from);
    var paused := Step(s, pause);
    OrderedByNames(s, paused, between, pause.now, to);
    RunEvolves(paused, between, pause.now, to, pause.id);
    var later := Run(paused, between, pause.now, to);
    var i :| 0 <= i < |attempt.ids| && attempt.ids[i] == Some(pause.id);
    var bs := Chosen(later, attempt.ids);
    assert bs[i] == Some(later[pause.id]);
    AdmitsExactlyWhen(bs, attempt.now);
  }

  /** An attempt takes one token from every bucket it names, or none from any. */
  lemma AllOrNone(s: Buckets, e: Event)
    requires AllSound(s, e.now) && Named(s, e) && e.Attempt?
    ensures (forall id :: Some(id) in e.ids ==> Takes(s, e, id) == 1 && Step(s, e)[id].tokens == Refilled(s[id], e.now).tokens - 1.0)
         || (forall id :: id in s ==> Takes(s, e, id) == 0 && Refilled(Step(s, e)[id], e.now).tokens == Refilled(s[id], e.now).tokens)
  {
    forall id | Some(id) in e.ids ensures id in s {
      var i :| 0 <= i < |e.ids| && e.ids[i] == Some(id);
    }
    if !Admitted(s, e) {
      forall id | id in s ensures Refilled(Step(s, e)[id], e.now).tokens == Refilled(s[id], e.now).tokens {
        if Some(id) in e.ids {
          assert Seconds(0) * s[id].rate == 0.0;
        }
      }
    }
  }
}
