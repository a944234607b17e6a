/** Dataset settings discovery: one request in flight per key, shared by all callers, and a backoff
    for datasets a zone is not entitled to. */
module Discovery {
  import opened Instants
  import opened Options

  datatype Key = Key(zone: bool, name: string)

  /** A dataset's settings as far as discovery reads them. */
  datatype Value = Value(enabled: bool, fields: seq<string>)

  const DISABLED := Value(false, [])

  datatype Entry = Entry(value: Value, expires: Time)

  datatype Answer = Failed | Absent | Present(value: Value)

  /** What the leader makes of the server's answer; only a zone may lack a dataset. */
  function ResultOf(key: Key, answer: Answer): Option<Value>
  {
    match answer
    case Failed => None
    case Absent => if key.zone then Some(DISABLED) else None
    case Present(value) => Some(value)
  }

  function Lifetime(key: Key, value: Value, backoff: Duration, jitter: Duration): Duration
  {
    if key.zone && !value.enabled then (if backoff <= 0 then HOUR else backoff) else 45 * MINUTE + jitter
  }

  // ---- The shared maps, one lock section at a time --------------------------------------

  /** The cache, the open channel of each request in flight, and the channels closed so far. */
  datatype Shared = Shared(settings: map<Key, Entry>, pending: map<Key, nat>, closed: set<nat>, next: nat)

  datatype Decision = Hit(value: Value) | Wait(chan: nat) | Lead(chan: nat)

  /** A refresh does not look at the cache, except for a zone's denial. */
  predicate Usable(s: Shared, key: Key, refresh: bool, now: Time)
  {
    key in s.settings && (!refresh || (key.zone && !s.settings[key].value.enabled)) && now < s.settings[key].expires
  }

  function Decide(s: Shared, key: Key, refresh: bool, now: Time): Decision
  {
    if Usable(s, key, refresh, now) then Hit(s.settings[key].value)
    else if key in s.pending then Wait(s.pending[key])
    else Lead(s.next)
  }

  function Entered(s: Shared, key: Key, refresh: bool, now: Time): Shared
  {
    if Decide(s, key, refresh, now).Lead? then s.(pending := s.pending[key := s.next], next := s.next + 1) else s
  }

  function Stored(s: Shared, key: Key, value: Value, expires: Time): Shared
  {
    s.(settings := s.settings[key := Entry(value, expires)])
  }

  function Released(s: Shared, key: Key): Shared
    requires key in s.pending
  {
    s.(closed := s.closed + {s.pending[key]}, pending := s.pending - {key})
  }

  /** The maps as the client updates them under its mutex. */
  class Client {
    const backoff: Duration
    var settings: map<Key, Entry>
    var pending: map<Key, nat>
    var closed: set<nat>
    var next: nat

    function View(): Shared
      reads this
    {
      Shared(settings, pending, closed, next)
    }

    constructor (backoff: Duration)
      ensures View() == EMPTY && this.backoff == backoff
    {
      this.backoff := backoff;
      settings, pending, closed, next := map[], map[], {}, 0;
    }

    method Enter(key: Key, refresh: bool, now: Time) returns (d: Decision)
      modifies this`pending, this`next
      ensures d == Decide(old(View()), key, refresh, now) && View() == Entered(old(View()), key, refresh, now)
    {
      if key in settings {
        var denied := key.zone && !settings[key].value.enabled;
        if (!refresh || denied) && now < settings[key].expires {
          return Hit(settings[key].value);
        }
      }
      if key in pending {
        return Wait(pending[key]);
      }
      d := Lead(next);
      pending := pending[key := next];
      next := next + 1;
    }

    method Store(key: Key, value: Value, now: Time, jitter: Duration)
      modifies this`settings
      ensures View() == Stored(old(View()), key, value, now + Lifetime(key, value, backoff, jitter))
    {
      var ttl := 45 * MINUTE + jitter;
      if key.zone && !value.enabled {
        ttl := backoff;
        if ttl <= 0 {
          ttl := HOUR;
        }
      }
      settings := settings[key := Entry(value, now + ttl)];
    }

    /** Closing a channel twice would panic. */
    method Release(key: Key)
      requires key in pending && pending[key] !in closed
      modifies this`closed, this`pending
      ensures View() == Released(old(View()), key)
    {
      closed := closed + {pending[key]};
      pending := pending - {key};
    }
  }

  const EMPTY := Shared(map[], map[], {}, 0)

  // ---- All callers together -------------------------------------------------------------

  datatype Phase =
    | Looking(key: Key, refresh: bool)
    | Waiting(key: Key, refresh: bool, chan: nat)
    | Asking(key: Key, chan: nat)
    | Leaving(key: Key, chan: nat, result: Option<Value>)
    | Done(result: Option<Value>)

  datatype System = System(shared: Shared, callers: map<nat, Phase>)

  datatype Step =
    | Call(caller: nat, key: Key, refresh: bool)
    | Enter(caller: nat, now: Time)
    | Wake(caller: nat)
    | Cancel(caller: nat)
    | Reply(caller: nat, answer: Answer, now: Time, jitter: Duration)
    | Leave(caller: nat)

  predicate Leads(p: Phase) { p.Asking? || p.Leaving? }

  /** Which caller may take the step next. */
  predicate Enabled(s: System, e: Step)
  {
    match e
    case Call(caller, _, _) => caller !in s.callers
    case Enter(caller, _) => caller in s.callers && s.callers[caller].Looking?
    case Wake(caller) => caller in s.callers && s.callers[caller].Waiting? && s.callers[caller].chan in s.shared.closed
    case Cancel(caller) => caller in s.callers && (s.callers[caller].Looking? || s.callers[caller].Waiting?)
    case Reply(caller, _, _, _) => caller in s.callers && s.callers[caller].Asking?
    case Leave(caller) => caller in s.callers && s.callers[caller].Leaving?
  }

  ghost function After(s: System, e: Step, backoff: Duration): System
    requires Inv(s) && Enabled(s, e)
  {
    match e
    case Call(caller, key, refresh) => s.(callers := s.callers[caller := Looking(key, refresh)])
    case Enter(caller, now) =>
      var p := s.callers[caller];
      var phase := match Decide(s.shared, p.key, p.refresh, now)
        case Hit(value) => Done(Some(value))
        case Wait(chan) => Waiting(p.key, p.refresh, chan)
        case Lead(chan) => Asking(p.key, chan);
      System(Entered(s.shared, p.key, p.refresh, now), s.callers[caller := phase])
    case Wake(caller) => s.(callers := s.callers[caller := Looking(s.callers[caller].key, s.callers[caller].refresh)])
    case Cancel(caller) => s.(callers := s.callers[caller := Done(None)])
    case Reply(caller, answer, now, jitter) =>
      var p := s.callers[caller];
      var result := ResultOf(p.key, answer);
      var shared := if result.None? then s.shared
        else Stored(s.shared, p.key, result.value, now + Lifetime(p.key, result.value, backoff, jitter));
      System(shared, s.callers[caller := Leaving(p.key, p.chan, result)])
    case Leave(caller) =>
      var p := s.callers[caller];
      System(Released(s.shared, p.key), s.callers[caller := Done(p.result)])
  }

  // ---- What every reachable state keeps -------------------------------------------------

  /** Open channels differ, and none has been closed. */
  ghost predicate ChannelsOk(s: Shared)
  {
    && (forall k :: k in s.pending ==> s.pending[k] < s.next && s.pending[k] !in s.closed)
    && (forall c :: c in s.closed ==> c < s.next)
    && (forall j, k :: j in s.pending && k in s.pending && j != k ==> s.pending[j] != s.pending[k])
  }

  ghost predicate LeadsKey(callers: map<nat, Phase>, i: nat, key: Key, chan: nat)
  {
    i in callers && Leads(callers[i]) && callers[i].key == key && callers[i].chan == chan
  }

  ghost predicate HasLeader(callers: map<nat, Phase>, key: Key, chan: nat)
  {
    exists i :: LeadsKey(callers, i, key, chan)
  }

  /** Each request in flight is one caller's, and holds the key's open channel. */
  ghost predicate LeadersOk(pending: map<Key, nat>, callers: map<nat, Phase>)
  {
    && (forall i :: i in callers && Leads(callers[i]) ==>
          callers[i].key in pending && pending[callers[i].key] == callers[i].chan)
    && (forall k :: k in pending ==> HasLeader(callers, k, pending[k]))
    && (forall i, j :: i in callers && j in callers && i != j && Leads(callers[i]) && Leads(callers[j]) ==>
          callers[i].key != callers[j].key)
  }

  /** No waiter's channel is lost: it is closed or still its key's open one. */
  ghost predicate WaitersOk(s: Shared, callers: map<nat, Phase>)
  {
    forall i :: i in callers && callers[i].Waiting? ==>
      callers[i].chan in s.closed || (callers[i].key in s.pending && s.pending[callers[i].key] == callers[i].chan)
  }

  ghost predicate Inv(s: System)
  {
    ChannelsOk(s.shared) && LeadersOk(s.shared.pending, s.callers) && WaitersOk(s.shared, s.callers)
  }

  lemma LeadersKept(pending: map<Key, nat>, callers: map<nat, Phase>, i: nat, p: Phase)
    requires LeadersOk(pending, callers)
    requires if i in callers && Leads(callers[i]) then Leads(p) && p.key == callers[i].key && p.chan == callers[i].chan
             else !Leads(p)
    ensures LeadersOk(pending, callers[i := p])
  {
    forall k | k in pending ensures HasLeader(callers[i := p], k, pending[k]) {
      var j :| LeadsKey(callers, j, k, pending[k]);
      assert LeadsKey(callers[i := p], j, k, pending[k]);
    }
  }

  lemma LeaderStarts(pending: map<Key, nat>, callers: map<nat, Phase>, i: nat, key: Key, chan: nat)
    requires LeadersOk(pending, callers) && key !in pending && i in callers && !Leads(callers[i])
    ensures LeadersOk(pending[key := chan], callers[i := Asking(key, chan)])
  {
    var more, asked := pending[key := chan], callers[i := Asking(key, chan)];
    forall k | k in more ensures HasLeader(asked, k, more[k]) {
      if k == key {
        assert LeadsKey(asked, i, key, chan);
      } else {
        var j :| LeadsKey(callers, j, k, pending[k]);
        assert LeadsKey(asked, j, k, more[k]);
      }
    }
  }

  lemma LeaderLeaves(pending: map<Key, nat>, callers: map<nat, Phase>, i: nat, result: Option<Value>)
    requires LeadersOk(pending, callers) && i in callers && Leads(callers[i])
    ensures LeadersOk(pending - {callers[i].key}, callers[i := Done(result)])
  {
    var less, left := pending - {callers[i].key}, callers[i := Done(result)];
    forall k | k in less ensures HasLeader(left, k, less[k]) {
      var j :| LeadsKey(callers, j, k, pending[k]);
      assert LeadsKey(left, j, k, less[k]);
    }
  }

  lemma InvKept(s: System, e: Step, backoff: Duration)
    requires Inv(s) && Enabled(s, e)
    ensures Inv(After(s, e, backoff))
  {
    hide ResultOf, Lifetime, LeadersOk, ChannelsOk, WaitersOk, Usable;
    match e
    case Call(i, key, refresh) => QuietKept(s.shared, s.shared, s.callers, i, Looking(key, refresh));
    case Enter(i, now) =>
      var d := Decide(s.shared, s.callers[i].key, s.callers[i].refresh, now);
      if d.Lead? {
        LeadKept(s.shared, s.callers, i, s.callers[i].key);
      } else {
        QuietKept(s.shared, s.shared, s.callers, i, After(s, e, backoff).callers[i]);
      }
    case Wake(i) => QuietKept(s.shared, s.shared, s.callers, i, After(s, e, backoff).callers[i]);
    case Cancel(i) => QuietKept(s.shared, s.shared, s.callers, i, Done(None));
    case Reply(i, answer, now, jitter) =>
      QuietKept(s.shared, After(s, e, backoff).shared, s.callers, i, After(s, e, backoff).callers[i]);
    case Leave(i) =>
      LeadersHold(s, i);
      LeaveKept(s.shared, s.callers, i, s.callers[i].result);
  }

  /** A step that opens and closes no channel. */
  lemma QuietKept(a: Shared, b: Shared, callers: map<nat, Phase>, i: nat, p: Phase)
    requires ChannelsOk(a) && LeadersOk(a.pending, callers) && WaitersOk(a, callers)
    requires b == a.(settings := b.settings)
    requires if i in callers && Leads(callers[i]) then Leads(p) && p.key == callers[i].key && p.chan == callers[i].chan
             else !Leads(p)
    requires p.Waiting? ==> p.key in a.pending && a.pending[p.key] == p.chan
    ensures ChannelsOk(b) && LeadersOk(b.pending, callers[i := p]) && WaitersOk(b, callers[i := p])
  {
    LeadersKept(a.pending, callers, i, p);
    hide LeadersOk;
  }

  lemma LeadKept(s: Shared, callers: map<nat, Phase>, i: nat, key: Key)
    requires ChannelsOk(s) && LeadersOk(s.pending, callers) && WaitersOk(s, callers)
    requires i in callers && callers[i].Looking? && key !in s.pending
    ensures var t := s.(pending := s.pending[key := s.next], next := s.next + 1);
      var more := callers[i := Asking(key, s.next)];
      ChannelsOk(t) && LeadersOk(t.pending, more) && WaitersOk(t, more)
  {
    LeaderStarts(s.pending, callers, i, key, s.next);
    hide LeadersOk;
  }

  lemma LeaveKept(s: Shared, callers: map<nat, Phase>, i: nat, result: Option<Value>)
    requires ChannelsOk(s) && LeadersOk(s.pending, callers) && WaitersOk(s, callers)
    requires i in callers && callers[i].Leaving? && callers[i].key in s.pending
    ensures var t := Released(s, callers[i].key); var less := callers[i := Done(result)];
      ChannelsOk(t) && LeadersOk(t.pending, less) && WaitersOk(t, less)
  {
    LeaderLeaves(s.pending, callers, i, result);
    hide LeadersOk;
  }

  lemma LeadersHold(s: System, i: nat)
    requires Inv(s) && i in s.callers && Leads(s.callers[i])
    ensures s.callers[i].key in s.shared.pending && s.shared.pending[s.callers[i].key] == s.callers[i].chan
  {
  }

  /** A run of the system: every step is one its caller may take. */
  ghost predicate IsRun(s: System, steps: seq<Step>, backoff: Duration)
    decreases |steps|
  {
    Inv(s) && (|steps| > 0 ==> Enabled(s, steps[0]) && IsRun(After(s, steps[0], backoff), steps[1..], backoff))
  }

  ghost function Run(s: System, steps: seq<Step>, backoff: Duration): System
    requires IsRun(s, steps, backoff)
    decreases |steps|
  {
    if |steps| == 0 then s else Run(After(s, steps[0], backoff), steps[1..], backoff)
  }

  lemma {:induction false} RunKeepsInv(s: System, steps: seq<Step>, backoff: Duration)
    requires IsRun(s, steps, backoff)
    ensures Inv(Run(s, steps, backoff))
    decreases |steps|
  {
    if |steps| > 0 {
      RunKeepsInv(After(s, steps[0], backoff), steps[1..], backoff);
    }
  }

  const START := System(EMPTY, map[])

  /** In every reachable state at most one request per key is in flight, the channel its leader is to
      close is open, and every waiter either can wake or waits on a channel some leader has yet to close. */
  lemma SingleFlight(steps: seq<Step>, backoff: Duration)
    requires IsRun(START, steps, backoff)
    ensures var s := Run(START, steps, backoff);
      && (forall i, j :: i in s.callers && j in s.callers && i != j && Leads(s.callers[i]) && Leads(s.callers[j]) ==>
            s.callers[i].key != s.callers[j].key)
      && (forall i :: i in s.callers && Leads(s.callers[i]) ==> s.callers[i].chan !in s.shared.closed)
      && (forall i :: i in s.callers && s.callers[i].Waiting? ==>
            s.callers[i].chan in s.shared.closed || HasLeader(s.callers, s.callers[i].key, s.callers[i].chan))
  {
    RunKeepsInv(START, steps, backoff);
  }

  /** The step starts a request for the key. */
  ghost predicate Starts(s: System, e: Step, key: Key)
    requires Inv(s) && Enabled(s, e)
  {
    e.Enter? && s.callers[e.caller].key == key && Decide(s.shared, key, s.callers[e.caller].refresh, e.now).Lead?
  }

  /** No request for the key starts in the run before the instant. */
  ghost predicate NoneStartsBefore(s: System, steps: seq<Step>, backoff: Duration, key: Key, until: Time)
    requires IsRun(s, steps, backoff)
    decreases |steps|
  {
    |steps| > 0 ==>
      && (Starts(s, steps[0], key) ==> steps[0].now >= until)
      && ((steps[0].Enter? ==> steps[0].now < until) ==>
            NoneStartsBefore(After(s, steps[0], backoff), steps[1..], backoff, key, until))
  }

  /** A zone's denial is in the cache and no request for the key is on its way. */
  ghost predicate Denied(s: System, key: Key, until: Time)
  {
    && key.zone && key in s.shared.settings && !s.shared.settings[key].value.enabled
    && s.shared.settings[key].expires == until
    && forall i :: i in s.callers && s.callers[i].Asking? ==> s.callers[i].key != key
  }

  lemma DeniedKept(s: System, e: Step, backoff: Duration, key: Key, until: Time)
    requires Inv(s) && Enabled(s, e) && Denied(s, key, until) && (e.Enter? ==> e.now < until)
    ensures Inv(After(s, e, backoff)) && Denied(After(s, e, backoff), key, until) && !Starts(s, e, key)
  {
    hide Inv, ResultOf, Lifetime;
    InvKept(s, e, backoff);
    match e
    case Enter(i, now) =>
      assert s.callers[i].key == key ==> Usable(s.shared, key, s.callers[i].refresh, now);
    case Reply(i, answer, now, jitter) =>
      assert s.callers[i].key != key;
    case _ =>
  }

  /** Once a denial is stored for a zone, no caller asks again before it expires, refreshing or not. */
  lemma {:induction false} DenialHolds(s: System, steps: seq<Step>, backoff: Duration, key: Key, until: Time)
    requires IsRun(s, steps, backoff) && Denied(s, key, until)
    ensures NoneStartsBefore(s, steps, backoff, key, until)
    decreases |steps|
  {
    if |steps| > 0 && (steps[0].Enter? ==> steps[0].now < until) {
      DeniedKept(s, steps[0], backoff, key, until);
      DenialHolds(After(s, steps[0], backoff), steps[1..], backoff, key, until);
    }
  }

  /** The leader's own answer is what makes that so: no second request can be on its way. */
  lemma ReplyDenies(s: System, e: Step, backoff: Duration)
    requires Inv(s) && Enabled(s, e) && e.Reply? && s.callers[e.caller].key.zone
    requires ResultOf(s.callers[e.caller].key, e.answer).Some? && !ResultOf(s.callers[e.caller].key, e.answer).value.enabled
    ensures var key := s.callers[e.caller].key;
      Denied(After(s, e, backoff), key, e.now + if backoff <= 0 then HOUR else backoff)
  {
  }

  // ---- Where answers come from ----------------------------------------------------------

  /** The reply says this of the key, to be kept until then: settings as present, or, for a zone, an absent
      dataset as disabled; a zone's denial for the backoff or an hour, anything else for 45 minutes and the
      jitter. A failure, and an account's absent dataset, say nothing. */
  predicate Says(key: Key, e: Step, backoff: Duration, entry: Entry)
    requires e.Reply?
  {
    && (e.answer == Present(entry.value) || (e.answer.Absent? && key.zone && entry.value == Value(false, [])))
    && entry.expires == e.now +
       if !key.zone || entry.value.enabled then 45 * 60 * SECOND + e.jitter
       else if backoff > 0 then backoff
       else 3600 * SECOND
  }

  /** A reply stores exactly what it says, and the leader returns it; when it says nothing the cache stays. */
  lemma ReplyStores(s: System, e: Step, backoff: Duration)
    requires Inv(s) && Enabled(s, e) && e.Reply?
    ensures var key := s.callers[e.caller].key; var t := After(s, e, backoff);
      && t.callers[e.caller].Leaving? && t.callers[e.caller].key == key
      && (if e.answer.Failed? || (e.answer.Absent? && !key.zone)
          then t.shared == s.shared && t.callers[e.caller].result == None
          else
            && key in t.shared.settings && Says(key, e, backoff, t.shared.settings[key])
            && t.shared.settings == s.shared.settings[key := t.shared.settings[key]]
            && t.callers[e.caller].result == Some(t.shared.settings[key].value))
      && t.shared.pending == s.shared.pending
  {
  }

  /** A caller gets a cached value exactly when it has not expired and the caller does not refresh, or it is a
      zone's denial; otherwise it waits for a request in flight, if there is one, or makes one. */
  lemma EnterLooks(s: System, e: Step, backoff: Duration)
    requires Inv(s) && Enabled(s, e) && e.Enter?
    ensures var p := s.callers[e.caller]; var q := After(s, e, backoff).callers[e.caller];
      var cache := s.shared.settings;
      && (q.Done? <==> p.key in cache && e.now < cache[p.key].expires
                       && (!p.refresh || (p.key.zone && !cache[p.key].value.enabled)))
      && (q.Done? ==> q.result == Some(cache[p.key].value))
      && (!q.Done? ==>
            if p.key in s.shared.pending then q == Waiting(p.key, p.refresh, s.shared.pending[p.key])
            else q.Asking? && q.key == p.key)
      && After(s, e, backoff).shared.settings == cache
  {
  }

  /** Some reply of the run said this entry of the key. */
  ghost predicate FromReply(s: System, steps: seq<Step>, backoff: Duration, key: Key, entry: Entry)
    requires IsRun(s, steps, backoff)
    decreases |steps|
  {
    |steps| > 0 &&
      ((steps[0].Reply? && s.callers[steps[0].caller].key == key && Says(key, steps[0], backoff, entry))
       || FromReply(After(s, steps[0], backoff), steps[1..], backoff, key, entry))
  }

  /** Every entry in the cache was said by a reply for its key, or was there before. */
  lemma {:induction false} CacheIsFromReplies(s: System, steps: seq<Step>, backoff: Duration, key: Key)
    requires IsRun(s, steps, backoff)
    ensures var cache := Run(s, steps, backoff).shared.settings;
      key in cache ==>
        (key in s.shared.settings && cache[key] == s.shared.settings[key])
        || FromReply(s, steps, backoff, key, cache[key])
    decreases |steps|
  {
    if |steps| > 0 {
      CacheIsFromReplies(After(s, steps[0], backoff), steps[1..], backoff, key);
      if steps[0].Reply? {
        ReplyStores(s, steps[0], backoff);
      }
    }
  }

  /** The caller found this value in the cache, not expired, or was told it by its own request. */
  ghost predicate Obtained(s: System, steps: seq<Step>, backoff: Duration, i: nat, value: Value)
    requires IsRun(s, steps, backoff)
    decreases |steps|
  {
    |steps| > 0 &&
      ((steps[0].Enter? && steps[0].caller == i && s.callers[i].key in s.shared.settings
        && s.shared.settings[s.callers[i].key].value == value && steps[0].now < s.shared.settings[s.callers[i].key].expires)
       || (steps[0].Reply? && steps[0].caller == i && exists entry: Entry ::
             entry.value == value && Says(s.callers[i].key, steps[0], backoff, entry))
       || Obtained(After(s, steps[0], backoff), steps[1..], backoff, i, value))
  }

  function Holds(p: Phase): Option<Value> { if p.Leaving? || p.Done? then p.result else None }

  /** A value that a caller returns was obtained so. */
  lemma {:induction false} ResultsAreObtained(s: System, steps: seq<Step>, backoff: Duration, i: nat)
    requires IsRun(s, steps, backoff)
    ensures var t := Run(s, steps, backoff);
      i in t.callers && Holds(t.callers[i]).Some? ==>
        (i in s.callers && Holds(s.callers[i]) == Holds(t.callers[i]))
        || Obtained(s, steps, backoff, i, Holds(t.callers[i]).value)
    decreases |steps|
  {
    if |steps| > 0 {
      ResultsAreObtained(After(s, steps[0], backoff), steps[1..], backoff, i);
      if steps[0].Reply? {
        ReplyStores(s, steps[0], backoff);
      } else if steps[0].Enter? {
        EnterLooks(s, steps[0], backoff);
      }
    }
  }

  /** The caller's own request was told this value. */
  ghost predicate Told(s: System, steps: seq<Step>, backoff: Duration, i: nat, value: Value)
    requires IsRun(s, steps, backoff)
    decreases |steps|
  {
    |steps| > 0 &&
      ((steps[0].Reply? && steps[0].caller == i && exists entry: Entry ::
          entry.value == value && Says(s.callers[i].key, steps[0], backoff, entry))
       || Told(After(s, steps[0], backoff), steps[1..], backoff, i, value))
  }

  /** A caller that has its answer keeps it. */
  lemma {:induction false} AnswerStays(s: System, steps: seq<Step>, backoff: Duration, i: nat)
    requires IsRun(s, steps, backoff) && i in s.callers && (s.callers[i].Leaving? || s.callers[i].Done?)
    ensures var t := Run(s, steps, backoff); i in t.callers && Holds(t.callers[i]) == Holds(s.callers[i])
    decreases |steps|
  {
    if |steps| > 0 {
      AnswerStays(After(s, steps[0], backoff), steps[1..], backoff, i);
    }
  }

  /** It refreshes settings of an account, or is asking already. */
  predicate WantsFresh(p: Phase) { p.Asking? || ((p.Looking? || p.Waiting?) && p.refresh && !p.key.zone) }

  /** A caller that refreshes an account's settings returns only what its own request was told, however often
      it waited for the requests of others. */
  lemma {:induction false} RefreshIsTold(s: System, steps: seq<Step>, backoff: Duration, i: nat)
    requires IsRun(s, steps, backoff) && i in s.callers && WantsFresh(s.callers[i])
    ensures var t := Run(s, steps, backoff);
      && i in t.callers
      && (Holds(t.callers[i]).Some? ==> Told(s, steps, backoff, i, Holds(t.callers[i]).value))
    decreases |steps|
  {
    if |steps| > 0 {
      var e, next := steps[0], After(s, steps[0], backoff);
      if e.Reply? {
        ReplyStores(s, e, backoff);
      }
      if WantsFresh(next.callers[i]) {
        RefreshIsTold(next, steps[1..], backoff, i);
      } else {
        AnswerStays(next, steps[1..], backoff, i);
      }
    }
  }
}
