/** The shared token buckets as the objects the process locks and updates. */
module Limiter {
  import opened Instants
  import opened Options
  import opened TokenBuckets

  class TokenBucket {
    var rate: real
    var capacity: real
    var tokens: real
    var burst: int
    var last: Time
    var pausedUntil: Time
    var started: bool

    ghost function View(): Bucket
      reads this
    {
      Bucket(rate, capacity, tokens, last, pausedUntil, started)
    }

    constructor (rate: real, burst: int)
      ensures View() == Full(rate, burst) && this.burst == burst
      ensures this.rate == rate && capacity == tokens == burst as real && !started && pausedUntil == 0
    {
      this.rate, this.burst, capacity, tokens := rate, burst, burst as real, burst as real;
      last, pausedUntil, started := 0, 0, false;
    }

    /** Lowers the rate, never raises it. */
    method ClampRate(rate: real) returns (changed: bool)
      modifies this`rate
      ensures View() == Clamped(old(View()), rate)
      ensures changed <==> this.rate != old(this.rate)
      ensures this.rate == MinReal(old(this.rate), rate)
    {
      if this.rate <= rate {
        return false;
      }
      this.rate := rate;
      return true;
    }

    /** Extends the pause, never shortens it. */
    method PauseFor(now: Time, delay: Duration)
      modifies this`pausedUntil
      ensures View() == Paused(old(View()), now, delay)
      ensures pausedUntil == if delay > 0 then Max(old(pausedUntil), now + delay) else old(pausedUntil)
    {
      if delay <= 0 {
        return;
      }
      var until := now + delay;
      if until > pausedUntil {
        pausedUntil := until;
      }
    }

    method Refill(now: Time)
      modifies this`tokens, this`last, this`started
      ensures View() == Refilled(old(View()), now)
    {
      if !started {
        last, started := now, true;
      }
      tokens := MinReal(capacity, tokens + Seconds(now - last) * rate);
      last := now;
    }

    /** How long the refilled bucket makes its caller wait. */
    method WaitFor(now: Time) returns (delay: Duration)
      requires rate > 0.0
      ensures delay == Wait(View(), now)
    {
      delay := Max(0, Sub(pausedUntil, now));
      if tokens < 1.0 {
        var seconds := (1.0 - tokens) / rate;
        var refill := MAX_DURATION;
        if seconds * 1.0e9 <= MAX_DURATION as real {
          refill := Ceiling(seconds * 1.0e9);
        }
        delay := Max(delay, refill);
      }
    }

    /** Anything another goroutine may do to the bucket by a later instant. */
    method Disturb(until: Time)
      requires Sound(View(), until)
      modifies this
      ensures Sound(View(), until) && Evolves(old(View()), View())
    {
      var now: int, amount: real, delay: int, choice: int := *, *, *, *;
      if now > until || now < 0 || (started && last > now) || pausedUntil > now + MAX_DURATION {
        return;
      }
      ghost var was := View();
      if choice == 0 && amount > 0.0 {
        ClampLowers(was, amount, now);
        var _ := ClampRate(amount);
      } else if choice == 1 && delay <= MAX_DURATION {
        PausedFacts(was, now, delay);
        PauseFor(now, delay);
      } else {
        TriedFacts(was, now, false);
        Refill(now);
        if tokens >= 1.0 && choice == 2 {
          TriedFacts(was, now, true);
          tokens := tokens - 1.0;
        }
      }
      LaterSound(View(), now, until);
    }
  }

  // ---- Several buckets ------------------------------------------------------------------

  /** No bucket is locked twice. */
  ghost predicate Distinct(buckets: seq<TokenBucket?>)
  {
    forall i, j :: 0 <= i < j < |buckets| && buckets[i] != null ==> buckets[i] != buckets[j]
  }

  ghost function Present(buckets: seq<TokenBucket?>): set<TokenBucket?>
  {
    set b: TokenBucket? | b in buckets && b != null
  }

  /** The buckets are in exactly these states. */
  ghost predicate Shows(buckets: seq<TokenBucket?>, vs: seq<Option<Bucket>>)
    reads Present(buckets)
  {
    && |vs| == |buckets|
    && forall i :: 0 <= i < |vs| ==> vs[i] == if buckets[i] == null then None else Some(buckets[i].View())
  }

  /** One pass under the locks: refills every bucket, and takes a token from each if none has to wait. */
  method TryAll(buckets: seq<TokenBucket?>, now: Time, ghost vs: seq<Option<Bucket>>) returns (delay: Duration)
    requires Distinct(buckets) && Shows(buckets, vs) && Positive(vs)
    modifies Present(buckets)
    ensures delay == Delay(vs, now) && Shows(buckets, TriedAll(vs, now, delay <= 0))
  {
    hide Refilled, Wait, Delay, Seconds;
    delay := RefillAll(buckets, now, vs);
    if delay <= 0 {
      TakeAll(buckets);
    }
  }

  method RefillAll(buckets: seq<TokenBucket?>, now: Time, ghost vs: seq<Option<Bucket>>) returns (delay: Duration)
    requires Distinct(buckets) && Shows(buckets, vs) && Positive(vs)
    modifies Present(buckets)
    ensures delay == Delay(vs, now) && Shows(buckets, TriedAll(vs, now, false))
  {
    hide Refilled, Wait, Delay, Seconds;
    delay := 0;
    ghost var done := vs;
    var i := 0;
    DelayOfNone(now);
    while i < |buckets|
      invariant 0 <= i <= |buckets| && Shows(buckets, done) && delay == Delay(vs[..i], now)
      invariant done == TriedAll(vs, now, false)[..i] + vs[i..]
    {
      var b := buckets[i];
      DelayStep(vs, i, now);
      if b != null {
        b.Refill(now);
        var wait := b.WaitFor(now);
        delay := Max(delay, wait);
      }
      DoneStep(vs, done, i, now);
      done := done[i := TriedAll(vs, now, false)[i]];
      i := i + 1;
    }
    assert vs[..i] == vs;
  }

  lemma DoneStep(vs: seq<Option<Bucket>>, done: seq<Option<Bucket>>, i: nat, now: Time)
    requires i < |vs| && done == TriedAll(vs, now, false)[..i] + vs[i..]
    ensures done[i := TriedAll(vs, now, false)[i]] == TriedAll(vs, now, false)[..i + 1] + vs[i + 1..]
  {
    hide TriedAll;
  }

  lemma DelayOfNone(now: Time)
    ensures Delay([], now) == 0
  {
  }

  lemma DelayStep(vs: seq<Option<Bucket>>, i: nat, now: Time)
    requires i < |vs| && Positive(vs)
    ensures Positive(vs[..i]) && Positive(vs[..i + 1])
    ensures Delay(vs[..i + 1], now) ==
      if vs[i].None? then Delay(vs[..i], now) else Max(Delay(vs[..i], now), Wait(Refilled(vs[i].value, now), now))
  {
    assert vs[..i + 1][..i] == vs[..i];
  }

  method TakeAll(buckets: seq<TokenBucket?>)
    requires Distinct(buckets)
    modifies Present(buckets)
    ensures forall k :: 0 <= k < |buckets| && buckets[k] != null ==>
      buckets[k].View() == old(buckets[k].View()).(tokens := old(buckets[k].tokens) - 1.0)
  {
    var i := 0;
    while i < |buckets|
      invariant 0 <= i <= |buckets|
      invariant forall k :: 0 <= k < i && buckets[k] != null ==>
        buckets[k].View() == old(buckets[k].View()).(tokens := old(buckets[k].tokens) - 1.0)
      invariant forall k :: i <= k < |buckets| && buckets[k] != null ==> buckets[k].View() == old(buckets[k].View())
    {
      var b := buckets[i];
      if b != null {
        b.tokens := b.tokens - 1.0;
      }
      i := i + 1;
    }
  }

  // ---- The retry loop -------------------------------------------------------------------

  datatype Outcome = Admitted | Cancelled | Waiting

  /** What one turn of the loop meets: how late its timer fires, and whether the context is over before the
      turn or while it sleeps. */
  datatype Turn = Turn(late: nat, over: bool, overAsleep: bool)

  /** The states one turn found under the locks. */
  datatype Try = Try(found: seq<Option<Bucket>>, now: Time)

  ghost predicate EvolvedAll(a: seq<Option<Bucket>>, b: seq<Option<Bucket>>)
  {
    && |a| == |b|
    && forall i :: 0 <= i < |a| ==> (a[i].None? <==> b[i].None?) && (a[i].Some? ==> Evolves(a[i].value, b[i].value))
  }

  /** While one caller sleeps, others may use, slow or pause the buckets. */
  method Others(buckets: seq<TokenBucket?>, until: Time, ghost vs: seq<Option<Bucket>>)
    returns (ghost r: seq<Option<Bucket>>)
    requires Distinct(buckets) && Shows(buckets, vs) && SoundSeq(vs, until)
    modifies Present(buckets)
    ensures Shows(buckets, r) && SoundSeq(r, until) && EvolvedAll(vs, r)
  {
    hide Sound, Evolves;
    r := vs;
    EvolvesByItself(vs);
    var steps: int := *;
    while steps > 0
      invariant Shows(buckets, r) && SoundSeq(r, until) && EvolvedAll(vs, r)
      decreases steps
    {
      steps := steps - 1;
      var i: int := *;
      if 0 <= i < |buckets| && buckets[i] != null {
        buckets[i].Disturb(until);
        EvolvesMore(vs[i].value, r[i].value, buckets[i].View(), until);
        r := r[i := Some(buckets[i].View())];
      }
    }
  }

  lemma EvolvesByItself(vs: seq<Option<Bucket>>)
    ensures EvolvedAll(vs, vs)
  {
  }

  lemma EvolvesMore(a: Bucket, b: Bucket, c: Bucket, t: Time)
    requires Evolves(a, b) && Evolves(b, c) && Sound(c, t)
    ensures Evolves(a, c) && c.rate > 0.0
  {
  }

  /** The first try is made at once and each later one when the delay of the one before is over; both as
      late as the timer was. Each found sound buckets. */
  ghost predicate TriesFollow(tries: seq<Try>, turns: seq<Turn>, from: Time)
  {
    && |tries| <= |turns|
    && (forall k :: 0 <= k < |tries| ==> SoundSeq(tries[k].found, tries[k].now))
    && (|tries| > 0 ==> tries[0].now == from + turns[0].late)
    && forall j, k :: 0 <= j && k == j + 1 < |tries| ==>
         tries[k].now == tries[j].now + Delay(tries[j].found, tries[j].now) + turns[k].late
  }

  lemma OneTryMore(tries: seq<Try>, turns: seq<Turn>, from: Time, t: Try)
    requires TriesFollow(tries, turns, from) && |tries| < |turns| && SoundSeq(t.found, t.now)
    requires t.now == turns[|tries|].late +
      if |tries| == 0 then from
      else tries[|tries| - 1].now + Delay(tries[|tries| - 1].found, tries[|tries| - 1].now)
    ensures TriesFollow(tries + [t], turns, from)
  {
    hide Delay, Sound;
  }

  ghost predicate HadToWait(t: Try)
  {
    Positive(t.found) && Delay(t.found, t.now) > 0
  }

  /** A try leaves its buckets refilled and untaken; until the next one only others touch them. */
  ghost predicate NothingTakenBetween(tries: seq<Try>)
  {
    forall k :: 0 < k < |tries| ==>
      EvolvedAll(TriedAll(tries[k - 1].found, tries[k - 1].now, false), tries[k].found)
  }

  /** Waits until every bucket can give a token at the same instant. A caller that is admitted took
      one token from each in its last try and none before; one that is cancelled took none. */
  method AcquireBudgets(buckets: seq<TokenBucket?>, turns: seq<Turn>, from: Time, ghost vs: seq<Option<Bucket>>)
    returns (outcome: Outcome, ghost tries: seq<Try>)
    requires Distinct(buckets) && Shows(buckets, vs) && SoundSeq(vs, from)
    modifies Present(buckets)
    ensures TriesFollow(tries, turns, from) && NothingTakenBetween(tries)
    ensures forall k :: 0 <= k < |tries| ==> HadToWait(tries[k]) || (outcome.Admitted? && k == |tries| - 1)
    ensures outcome.Admitted? ==>
      && |tries| > 0 && AllReady(tries[|tries| - 1].found, tries[|tries| - 1].now)
      && Shows(buckets, TriedAll(tries[|tries| - 1].found, tries[|tries| - 1].now, true))
    ensures !outcome.Admitted? ==>
      Shows(buckets, if |tries| == 0 then vs else TriedAll(tries[|tries| - 1].found, tries[|tries| - 1].now, false))
    ensures outcome.Cancelled? ==>
      || (|tries| < |turns| && turns[|tries|].over)
      || (|tries| > 0 && turns[|tries| - 1].overAsleep)
    ensures outcome.Waiting? <==> |tries| == |turns| && !outcome.Admitted? && !outcome.Cancelled?
  {
    hide Sound, Delay, TriedAll, AllReady, Evolves, Shows, EvolvedAll, TriesFollow;
    tries := [];
    ghost var now, shown := from, vs;
    var i, timer: Time := 0, from;
    NoTries(turns, from);
    while i < |turns|
      invariant 0 <= i <= |turns| && |tries| == i
      invariant Shows(buckets, shown) && SoundSeq(shown, now) && now <= timer
      invariant TriesFollow(tries, turns, from) && NothingTakenBetween(tries)
      invariant forall k :: 0 <= k < i ==> HadToWait(tries[k])
      invariant i == 0 ==> shown == vs && timer == from
      invariant i > 0 ==>
        && shown == TriedAll(tries[i - 1].found, tries[i - 1].now, false)
        && Positive(tries[i - 1].found) && timer == tries[i - 1].now + Delay(tries[i - 1].found, tries[i - 1].now)
    {
      if turns[i].over {
        return Cancelled, tries;
      }
      var at := timer + turns[i].late;
      StillSound(shown, now, at);
      now := at;
      ghost var found := Others(buckets, at, shown);
      var delay := TryAll(buckets, at, found);
      OneTryMore(tries, turns, from, Try(found, at));
      tries := tries + [Try(found, at)];
      AdmitsExactlyWhen(found, at);
      if delay <= 0 {
        return Admitted, tries;
      }
      shown := TriedAll(found, at, false);
      TriedSound(found, at);
      if turns[i].overAsleep {
        return Cancelled, tries;
      }
      timer := at + delay;
      i := i + 1;
    }
    outcome := Waiting;
  }

  lemma NoTries(turns: seq<Turn>, from: Time)
    ensures TriesFollow([], turns, from)
  {
  }

  /** A caller whose buckets nobody touched while it slept, and that can refill in time, is admitted by its
      second try. */
  lemma UndisturbedIsAdmitted(tries: seq<Try>, turns: seq<Turn>, from: Time)
    requires TriesFollow(tries, turns, from) && |tries| > 1
    requires HadToWait(tries[0]) && Refillable(tries[0].found, tries[0].now)
    requires tries[1].found == TriedAll(tries[0].found, tries[0].now, false)
    ensures !HadToWait(tries[1])
  {
    var d := tries[1].now - tries[0].now;
    assert d == Delay(tries[0].found, tries[0].now) + turns[1].late;
    SleepAdmits(tries[0].found, tries[0].now, d);
  }

  lemma StillSound(vs: seq<Option<Bucket>>, from: Time, now: Time)
    requires SoundSeq(vs, from) && from <= now
    ensures SoundSeq(vs, now)
  {
  }

  lemma TriedSound(vs: seq<Option<Bucket>>, now: Time)
    requires SoundSeq(vs, now)
    ensures SoundSeq(TriedAll(vs, now, false), now)
  {
    forall i | 0 <= i < |vs| && vs[i].Some? ensures Sound(Tried(vs[i].value, now, false), now) {
      TriedFacts(vs[i].value, now, false);
    }
  }

  // ---- Buckets by resource --------------------------------------------------------------

  class ScopeBuckets {
    const accountBased: bool
    const rate: real
    const burst: int
    var buckets: map<string, TokenBucket>

    /** No two resources share a bucket. */
    ghost predicate Valid()
      reads this
    {
      forall a, b :: a in buckets && b in buckets && buckets[a] == buckets[b] ==> a == b
    }

    constructor (accountBased: bool, rate: real, burst: int)
      ensures Valid() && buckets == map[] && this.accountBased == accountBased && this.rate == rate && this.burst == burst
    {
      this.accountBased, this.rate, this.burst, buckets := accountBased, rate, burst, map[];
    }

    /** One resource always gets the same bucket, a new one starts full, and no bucket is touched. */
    method Bucket(key: string) returns (b: TokenBucket?)
      requires Valid()
      modifies this`buckets
      ensures Valid()
      ensures b == null <==> !accountBased || key == ""
      ensures b == null ==> buckets == old(buckets)
      ensures b != null ==> buckets == old(buckets)[key := b]
      ensures b != null && key in old(buckets) ==> b == old(buckets)[key]
      ensures b != null && key !in old(buckets) ==> fresh(b) && b.View() == Full(rate, burst)
    {
      if !accountBased || key == "" {
        return null;
      }
      if key in buckets {
        return buckets[key];
      }
      b := new TokenBucket(rate, burst);
      buckets := buckets[key := b];
    }
  }
}
