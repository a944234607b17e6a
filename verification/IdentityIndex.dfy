/** The bounded in-memory index of Access logins. */
module IdentityIndex {
  import opened Instants
  import opened Options
  import opened Sets
  import opened TopRank
  import opened Logins

  // ---- The two-level minute map ---------------------------------------------------------

  type Minutes = map<int, map<Key, set<Candidate>>>

  ghost predicate Filed(m: Minutes, c: Candidate)
  {
    c.bucket in m && c.key in m[c.bucket] && c in m[c.bucket][c.key]
  }

  /** Each candidate is under its own minute and key, and no level is empty. */
  ghost predicate Shaped(m: Minutes)
  {
    && (forall b, k, c :: b in m && k in m[b] && c in m[b][k] ==> c.bucket == b && c.key == k)
    && (forall b :: b in m ==> m[b] != map[])
    && (forall b, k :: b in m && k in m[b] ==> m[b][k] != {})
  }

  /** The map holds exactly these candidates. */
  ghost predicate Holds(m: Minutes, cs: set<Candidate>)
  {
    Shaped(m) && forall c :: c in cs <==> Filed(m, c)
  }

  function Add(m: Minutes, c: Candidate): Minutes
  {
    var keyed := if c.bucket in m then m[c.bucket] else map[];
    m[c.bucket := keyed[c.key := (if c.key in keyed then keyed[c.key] else {}) + {c}]]
  }

  lemma AddHolds(m: Minutes, cs: set<Candidate>, c: Candidate)
    requires Holds(m, cs)
    ensures Holds(Add(m, c), cs + {c})
  {
    AddShaped(m, c);
    AddFiled(m, c);
    hide Add, Shaped, Filed;
  }

  lemma AddShaped(m: Minutes, c: Candidate)
    requires Shaped(m)
    ensures Shaped(Add(m, c))
  {
    assert c.key in Add(m, c)[c.bucket];
  }

  lemma AddFiled(m: Minutes, c: Candidate)
    ensures forall d :: Filed(Add(m, c), d) <==> Filed(m, d) || d == c
  {
  }

  method AddTo(m: Minutes, c: Candidate) returns (r: Minutes)
    ensures r == Add(m, c)
  {
    r := m;
    if c.bucket !in r {
      r := r[c.bucket := map[]];
    }
    var keyed := r[c.bucket];
    if c.key !in keyed {
      keyed := keyed[c.key := {}];
    }
    ghost var before := if c.bucket in m then m[c.bucket] else map[];
    assert keyed[c.key := keyed[c.key] + {c}] == before[c.key := (if c.key in before then before[c.key] else {}) + {c}];
    keyed := keyed[c.key := keyed[c.key] + {c}];
    r := r[c.bucket := keyed];
  }

  function Remove(m: Minutes, c: Candidate): Minutes
    requires Filed(m, c)
  {
    var left := m[c.bucket][c.key] - {c};
    var keyed := if left == {} then m[c.bucket] - {c.key} else m[c.bucket][c.key := left];
    if keyed == map[] then m - {c.bucket} else m[c.bucket := keyed]
  }

  method RemoveFrom(m: Minutes, c: Candidate) returns (r: Minutes)
    requires Filed(m, c)
    ensures r == Remove(m, c)
  {
    var keyed := m[c.bucket];
    var left := keyed[c.key] - {c};
    keyed := keyed[c.key := left];
    if left == {} {
      keyed := keyed - {c.key};
      assert keyed == m[c.bucket] - {c.key};
    }
    r := m[c.bucket := keyed];
    if keyed == map[] {
      r := r - {c.bucket};
      assert r == m - {c.bucket};
    }
  }

  lemma RemoveHolds(m: Minutes, cs: set<Candidate>, c: Candidate)
    requires Holds(m, cs) && c in cs
    ensures Filed(m, c) && Holds(Remove(m, c), cs - {c})
  {
    assert Filed(m, c);
    forall d ensures d in cs - {c} <==> Filed(Remove(m, c), d) {
      assert d in cs <==> Filed(m, d);
      if d.bucket == c.bucket && d.key != c.key && Filed(m, d) {
        assert d.key in m[c.bucket] - {c.key};
      }
    }
  }

  // ---- Expiry on one heap ---------------------------------------------------------------

  /** What is left of a set of ranks while entries before the cutoff are popped. */
  ghost predicate Expiring(left: set<Entry>, before: set<Entry>, cutoff: int)
  {
    left <= before && forall e :: e in before && e !in left ==> e.at < cutoff
  }

  lemma ExpiredIsRecent(left: set<Entry>, before: set<Entry>, cutoff: int)
    requires Expiring(left, before, cutoff)
    requires left == {} || exists least :: IsLeast(least, left) && least.at >= cutoff
    ensures left == Recent(before, cutoff)
  {
  }

  lemma RecentAgain(all: set<Entry>, a: int, b: int)
    requires a <= b
    ensures Recent(Recent(all, a), b) == Recent(all, b)
  {
  }

  function Digests(entries: set<Entry>): set<int> { set e | e in entries :: e.digest }

  ghost predicate DigestsUnique(entries: set<Entry>)
  {
    forall e, f :: e in entries && f in entries && e.digest == f.digest ==> e == f
  }

  lemma EntriesUnique(logins: set<Login>, fingerprint: Login -> int)
    requires Injective(fingerprint)
    ensures DigestsUnique(Entries(logins, fingerprint))
  {
  }

  function Same(e: Entry): Entry { e }

  // ---- The index ------------------------------------------------------------------------

  const MAX_INT := 0x7fff_ffff_ffff_ffff

  datatype Stats = Stats(matched: nat, unmatched: nat, ambiguous: nat)

  function Counted(s: Stats, m: Match): Stats
  {
    if m.ambiguous then s.(ambiguous := s.ambiguous + 1)
    else if m.inferred then s.(matched := s.matched + 1)
    else s.(unmatched := s.unmatched + 1)
  }

  /** What a scan knows after visiting some candidates: their one user and the latest of them. */
  ghost predicate Progress(found: set<Candidate>, chosen: Option<Candidate>, user: string)
  {
    && (found == {} <==> chosen.None?) && (found == {} <==> user == "")
    && (forall c :: c in found ==> User(c.login) == user)
    && (chosen.Some? ==> IsLatest(chosen.value, found))
  }

  lemma FinalAnswer(m: Match, found: set<Candidate>, chosen: Option<Candidate>, user: string)
    requires Progress(found, chosen, user)
    requires m == if chosen.None? then UNMATCHED
                  else Match(chosen.value.login.userEmail, chosen.value.login.rayID, true, false)
    ensures IsAnswer(m, found)
  {
  }

  lemma ProgressStep(found: set<Candidate>, chosen: Option<Candidate>, user: string, c: Candidate)
    requires Progress(found, chosen, user) && c !in found && RanksDiffer(found + {c})
    requires User(c.login) != ""
    ensures user != "" && user != User(c.login) ==> TwoUsers(found + {c})
    ensures user == "" || user == User(c.login) ==>
      Progress(found + {c}, if chosen.None? || RankLess(Rank(chosen.value), Rank(c)) then Some(c) else chosen, User(c.login))
  {
    if user != "" {
      assert chosen.value in found + {c} && c in found + {c};
    }
  }

  ghost predicate RanksDiffer(cs: set<Candidate>)
  {
    forall c, d {:trigger RankLess(Rank(c), Rank(d))} ::
      c in cs && d in cs && c != d ==> RankLess(Rank(c), Rank(d)) || RankLess(Rank(d), Rank(c))
  }

  /** Visits one key's candidates of one minute, in any order. */
  method ScanMinute(cs: set<Candidate>, at: Time, window: Duration, ghost found: set<Candidate>,
                    chosen: Option<Candidate>, user: string)
    returns (chosen': Option<Candidate>, user': string, ambiguous: bool)
    requires Progress(found, chosen, user) && cs !! found && RanksDiffer(found + cs)
    requires forall c :: c in cs ==> TrimSpace(c.login.userEmail) != ""
    ensures ambiguous ==> TwoUsers(found + Windowed(cs, at, window))
    ensures !ambiguous ==> Progress(found + Windowed(cs, at, window), chosen', user')
  {
    hide Progress, RanksDiffer, User, TrimSpace, RankLess, Windowed, TwoUsers;
    chosen', user', ambiguous := chosen, user, false;
    ghost var visited := found;
    var todo := cs;
    OneMoreWindowed(found, {}, {}, at, window);
    assert cs - todo == {};
    while todo != {}
      invariant todo <= cs && visited == found + Windowed(cs - todo, at, window)
      invariant Progress(visited, chosen', user')
      decreases |todo|
    {
      var c :| c in todo;
      OneMoreWindowed(found, cs - todo, {c}, at, window);
      assert cs - todo + {c} == cs - (todo - {c});
      todo := todo - {c};
      if c.login.at > at || at - c.login.at > window {
        continue;
      }
      var u := User(c.login);
      UserNotEmpty(c.login);
      FewerRanks(found + cs, found, cs - todo - {c}, c, at, window);
      ProgressStep(visited, chosen', user', c);
      visited := visited + {c};
      if user' != "" && user' != u {
        MoreUsers(visited, found, cs - todo, cs, at, window);
        return chosen', user', true;
      }
      user' := u;
      if chosen'.None? || RankLess(Rank(chosen'.value), Rank(c)) {
        chosen' := Some(c);
      }
    }
    assert cs - todo == cs;
  }

  lemma OneMoreWindowed(found: set<Candidate>, done: set<Candidate>, more: set<Candidate>, at: Time, window: Duration)
    ensures Windowed({}, at, window) == {} && found + Windowed({}, at, window) == found
    ensures Windowed(done + more, at, window) == Windowed(done, at, window) + Windowed(more, at, window)
    ensures forall c :: more == {c} ==> Windowed(more, at, window) == if InWindow(c, at, window) then {c} else {}
    ensures found + (Windowed(done, at, window) + Windowed(more, at, window))
         == found + Windowed(done, at, window) + Windowed(more, at, window)
  {
  }

  lemma FewerRanks(all: set<Candidate>, found: set<Candidate>, done: set<Candidate>, c: Candidate, at: Time,
                   window: Duration)
    requires RanksDiffer(all) && found <= all && done <= all && c in all && c !in found && c !in done
    ensures RanksDiffer(found + Windowed(done, at, window) + {c}) && c !in Windowed(done, at, window)
  {
  }

  lemma MoreUsers(some: set<Candidate>, found: set<Candidate>, done: set<Candidate>, cs: set<Candidate>,
                  at: Time, window: Duration)
    requires TwoUsers(some) && some == found + Windowed(done, at, window) && done <= cs
    ensures TwoUsers(found + Windowed(cs, at, window))
  {
    var c, d :| c in some && d in some && User(c.login) != User(d.login);
    assert c in found + Windowed(cs, at, window) && d in found + Windowed(cs, at, window);
  }

  /** Which candidates a scan has covered once some minutes are done. */
  function InMinutes(target: set<Candidate>, todo: set<int>): set<Candidate>
  {
    set c | c in target && c.bucket !in todo
  }

  lemma MinuteDone(target: set<Candidate>, cs: set<Candidate>, all: set<Candidate>, key: Key, b: int, todo: set<int>,
                   at: Time, window: Duration)
    requires target == Matching(all, key, at, window) && b in todo
    requires forall c :: c in cs <==> c in all && c.bucket == b && c.key == key
    ensures InMinutes(target, todo) + Windowed(cs, at, window) == InMinutes(target, todo - {b})
    ensures cs !! InMinutes(target, todo) && InMinutes(target, todo) + cs <= all
  {
  }

  lemma RanksDifferIn(some: set<Candidate>, all: set<Candidate>)
    requires some <= all && RanksDiffer(all)
    ensures RanksDiffer(some)
  {
  }

  lemma AmbiguousAnswer(some: set<Candidate>, target: set<Candidate>)
    requires TwoUsers(some) && some <= target
    ensures IsAnswer(AMBIGUOUS, target)
  {
    var c, d :| c in some && d in some && User(c.login) != User(d.login);
    assert c in target && d in target;
  }

  lemma VisitedPart(target: set<Candidate>, todo: set<int>)
    ensures InMinutes(target, todo) <= target
  {
  }

  lemma NothingVisited(target: set<Candidate>, keys: set<int>)
    requires forall c :: c in target ==> c.bucket in keys
    ensures InMinutes(target, keys) == {} && InMinutes(target, {}) == target
    ensures Progress({}, None, "")
  {
  }

  lemma UserNotEmpty(login: Login)
    requires TrimSpace(login.userEmail) != ""
    ensures User(login) != ""
  {
  }

  ghost predicate Injective(fingerprint: Login -> int)
  {
    forall a, b {:trigger fingerprint(a), fingerprint(b)} :: fingerprint(a) == fingerprint(b) ==> a == b
  }

  function EntryOf(l: Login, fingerprint: Login -> int): Entry { Entry(l.at, fingerprint(l)) }

  function Entries(logins: set<Login>, fingerprint: Login -> int): set<Entry>
  {
    set l | l in logins :: EntryOf(l, fingerprint)
  }

  class MemoryIndex {
    const window: Duration
    const retention: Duration
    const maxCandidates: nat
    const maxSeen: nat
    const fingerprint: Login -> int
    var latest: Time
    var byMinute: Minutes
    var oldest: seq<Candidate>
    var seenRows: set<int>
    var seenOldest: seq<Entry>
    var stats: Stats
    /** Every indexable login ever observed. */
    ghost var observed: set<Login>

    /** The entries of the observed logins that have not expired. */
    ghost function Live(): set<Entry>
      reads this
    {
      Recent(Entries(observed, fingerprint), latest - retention)
    }

    ghost function Candidates(): set<Candidate>
      reads `oldest
    {
      set c | c in oldest
    }

    ghost predicate Configured()
    {
      0 < window <= retention && 0 < maxCandidates <= maxSeen && Injective(fingerprint)
    }

    ghost predicate SeenOk(live: set<Entry>)
      reads `seenOldest, `seenRows
    {
      && Sorted(seenOldest, Same)
      && seenRows == Digests(Ranks(seenOldest, Same))
      && DigestsUnique(live)
      && IsTop(Ranks(seenOldest, Same), live, maxSeen)
    }

    ghost predicate CandidatesOk(live: set<Entry>)
      reads `oldest, `byMinute, `observed
    {
      && Stored()
      && IsTop(Ranks(oldest, Rank), live, maxCandidates)
    }

    /** The heap and the minute map hold the same candidates, each built from an observed login. */
    ghost predicate Stored()
      reads `oldest, `byMinute, `observed
    {
      && Sorted(oldest, Rank)
      && Holds(byMinute, Candidates())
      && (forall c :: c in oldest ==>
            c.login in observed && Indexable(c.login) && c == NewCandidate(c.login, fingerprint(c.login)))
    }

    ghost predicate Valid()
      reads this
    {
      Configured() && SeenOk(Live()) && CandidatesOk(Live())
    }

    constructor (window: Duration, retention: Duration, maxCandidates: nat, fingerprint: Login -> int)
      requires 0 < window <= retention && 0 < maxCandidates && Injective(fingerprint)
      ensures Valid() && observed == {} && latest == 0 && oldest == []
      ensures this.window == window && this.retention == retention && this.maxCandidates == maxCandidates
      ensures this.fingerprint == fingerprint
      ensures maxSeen == if 4 * maxCandidates < 0x8000_0000_0000_0000 then 4 * maxCandidates else maxCandidates
    {
      this.window, this.retention, this.maxCandidates := window, retention, maxCandidates;
      this.maxSeen := if maxCandidates <= MAX_INT / 4 then 4 * maxCandidates else maxCandidates;
      this.fingerprint := fingerprint;
      latest, byMinute, oldest, seenRows, seenOldest, stats := 0, map[], [], {}, [], Stats(0, 0, 0);
      observed := {};
    }

    /** Pops the lowest-ranked candidate from the heap and from the minute map. */
    method RemoveOldest()
      requires Stored() && |oldest| > 0
      modifies this`oldest, this`byMinute
      ensures Stored() && oldest == old(oldest)[1..]
    {
      var c := oldest[0];
      ghost var cs := Candidates();
      RemoveHolds(byMinute, cs, c);
      RestOfSorted(oldest, c);
      oldest := oldest[1..];
      byMinute := RemoveFrom(byMinute, c);
      assert Candidates() == cs - {c};
    }

    static lemma RestOfSorted(h: seq<Candidate>, c: Candidate)
      requires Sorted(h, Rank) && |h| > 0 && c == h[0]
      ensures (set d | d in h[1..]) == (set d | d in h) - {c}
    {
      assert c !in h[1..];
      assert forall i :: 1 <= i < |h| ==> h[1..][i - 1] == h[i];
    }

    method ExpireSeen(cutoff: Time, ghost before: set<Entry>)
      requires SeenOk(before)
      modifies this`seenOldest, this`seenRows
      ensures SeenOk(Recent(before, cutoff))
    {
      ghost var start := Ranks(seenOldest, Same);
      while |seenOldest| > 0 && seenOldest[0].at < cutoff
        invariant SeenStored() && Expiring(Ranks(seenOldest, Same), start, cutoff)
        decreases |seenOldest|
      {
        PopSeen();
      }
      SortedFacts(seenOldest, Same);
      ExpiredIsRecent(Ranks(seenOldest, Same), start, cutoff);
      TopExpire(start, before, maxSeen, cutoff);
    }

    method ExpireCandidates(cutoff: Time, ghost before: set<Entry>)
      requires CandidatesOk(before)
      modifies this`oldest, this`byMinute
      ensures CandidatesOk(Recent(before, cutoff))
      ensures forall c :: c in oldest <==> c in old(oldest) && c.login.at >= cutoff
    {
      ghost var start := Ranks(oldest, Rank);
      while |oldest| > 0 && oldest[0].login.at < cutoff
        invariant Stored() && Expiring(Ranks(oldest, Rank), start, cutoff)
        invariant forall c :: c in oldest ==> c in old(oldest)
        invariant forall c :: c in old(oldest) && c !in oldest ==> c.login.at < cutoff
        decreases |oldest|
      {
        SortedFacts(oldest, Rank);
        RemoveOldest();
      }
      SortedFacts(oldest, Rank);
      ExpiredIsRecent(Ranks(oldest, Rank), start, cutoff);
      TopExpire(start, before, maxCandidates, cutoff);
      forall c | c in oldest ensures c.login.at >= cutoff {
        InRanks(oldest, c, Rank);
      }
    }

    method Advance(at: Time)
      requires Valid()
      modifies this`latest, this`seenOldest, this`seenRows, this`oldest, this`byMinute
      ensures Valid() && latest == Max(old(latest), at)
      ensures forall c :: c in oldest <==> c in old(oldest) && c.login.at >= latest - retention
    {
      hide SeenOk, CandidatesOk;
      ghost var before, was := Live(), latest - retention;
      if at > latest {
        latest := at;
      }
      var cutoff := latest - retention;
      ExpireSeen(cutoff, before);
      ExpireCandidates(cutoff, before);
      RecentAgain(Entries(observed, fingerprint), was, cutoff);
    }

    ghost predicate SeenStored()
      reads `seenOldest, `seenRows
    {
      && Sorted(seenOldest, Same)
      && seenRows == Digests(Ranks(seenOldest, Same)) && DigestsUnique(Ranks(seenOldest, Same))
    }

    method PopSeen()
      requires SeenStored() && |seenOldest| > 0
      modifies this`seenOldest, this`seenRows
      ensures SeenStored() && seenOldest == old(seenOldest)[1..]
      ensures Ranks(seenOldest, Same) == Ranks(old(seenOldest), Same) - {old(seenOldest)[0]}
    {
      SortedFacts(seenOldest, Same);
      var seen := seenOldest[0];
      DigestsShrink(Ranks(seenOldest, Same), seen);
      seenOldest := seenOldest[1..];
      seenRows := seenRows - {seen.digest};
    }

    method PushSeen(x: Entry)
      requires SeenStored() && Sorted(Push(seenOldest, x, Same), Same)
      requires Ranks(Push(seenOldest, x, Same), Same) == Ranks(seenOldest, Same) + {x}
      requires DigestsUnique(Ranks(seenOldest, Same) + {x})
      modifies this`seenOldest, this`seenRows
      ensures SeenStored() && seenOldest == Push(old(seenOldest), x, Same)
    {
      DigestsGrow(Ranks(seenOldest, Same), x);
      seenRows := seenRows + {x.digest};
      seenOldest := Push(seenOldest, x, Same);
    }

    /** Remembers a fingerprint that ranks above the bounded set or still fits in it. */
    method InsertSeen(x: Entry, ghost live: set<Entry>)
      requires Configured() && SeenOk(live) && x.digest !in seenRows && DigestsUnique(live + {x})
      requires |seenOldest| == maxSeen ==> RankLess(seenOldest[0], x)
      modifies this`seenOldest, this`seenRows
      ensures SeenOk(live + {x}) && x !in live
    {
      ghost var top := Ranks(seenOldest, Same);
      ghost var least := if |seenOldest| > 0 then seenOldest[0] else x;
      assert x !in top;
      SortedFacts(seenOldest, Same);
      TopInsert(top, live, maxSeen, x, least);
      PushSorted(seenOldest, x, Same);
      if |seenOldest| == maxSeen {
        PushKeepsFirst(seenOldest, x, Same);
      }
      hide RankLess, Push, Ranks, Sorted, Digests;
      PushSeen(x);
      while |seenOldest| > maxSeen
        invariant SeenStored() && |seenOldest| <= maxSeen + 1
        invariant |seenOldest| > maxSeen ==>
          Ranks(seenOldest, Same) == top + {x} && seenOldest[0] == least && IsTop(top + {x} - {least}, live + {x}, maxSeen)
        invariant |seenOldest| <= maxSeen ==> IsTop(Ranks(seenOldest, Same), live + {x}, maxSeen)
        decreases |seenOldest|
      {
        PopSeen();
      }
    }

    static lemma DigestsGrow(top: set<Entry>, x: Entry)
      ensures Digests(top + {x}) == Digests(top) + {x.digest}
    {
      forall d | d in Digests(top) ensures d in Digests(top + {x}) {
        var e :| e in top && e.digest == d;
        assert e in top + {x};
      }
      assert x in top + {x};
    }

    static lemma DigestsShrink(top: set<Entry>, x: Entry)
      requires DigestsUnique(top) && x in top
      ensures Digests(top - {x}) == Digests(top) - {x.digest}
    {
      forall d | d in Digests(top) && d != x.digest ensures d in Digests(top - {x}) {
        var e :| e in top && e.digest == d;
        assert e in top - {x};
      }
    }

    static lemma PushKeepsFirst<T>(h: seq<T>, x: T, rank: T -> Entry)
      requires |h| > 0 && RankLess(rank(h[0]), rank(x))
      ensures Push(h, x, rank)[0] == h[0]
    {
    }

    /** Keeps a login that ranks above the bounded candidates or still fits among them. */
    method InsertCandidate(login: Login, ghost live: set<Entry>)
      requires Configured() && CandidatesOk(live) && Indexable(login) && login in observed
      requires EntryOf(login, fingerprint) !in live
      modifies this`oldest, this`byMinute
      ensures CandidatesOk(live + {EntryOf(login, fingerprint)})
    {
      var c := NewCandidate(login, fingerprint(login));
      var x := Rank(c);
      ghost var top := Ranks(oldest, Rank);
      SortedFacts(oldest, Rank);
      TopInsert(top, live, maxCandidates, x, if |oldest| > 0 then Rank(oldest[0]) else x);
      if |oldest| == maxCandidates && !RankLess(Rank(oldest[0]), x) {
        return;
      }
      PushSorted(oldest, c, Rank);
      if |oldest| == maxCandidates {
        PushKeepsFirst(oldest, c, Rank);
      }
      PushCandidate(c);
      while |oldest| > maxCandidates
        invariant Stored() && (|oldest| == maxCandidates + 1 || CandidatesOk(live + {x}))
        invariant |oldest| == maxCandidates + 1 ==>
          Ranks(oldest, Rank) == top + {x} && IsTop(top + {x} - {Rank(oldest[0])}, live + {x}, maxCandidates)
        decreases |oldest|
      {
        SortedFacts(oldest, Rank);
        RemoveOldest();
      }
    }

    method PushCandidate(c: Candidate)
      requires Stored() && Sorted(Push(oldest, c, Rank), Rank)
      requires c.login in observed && Indexable(c.login) && c == NewCandidate(c.login, fingerprint(c.login))
      modifies this`oldest, this`byMinute
      ensures Stored() && oldest == Push(old(oldest), c, Rank)
    {
      hide Sorted, Push, Holds, NewCandidate, Indexable, Add;
      ghost var cs := Candidates();
      AddHolds(byMinute, cs, c);
      PushedCandidates(oldest, c);
      byMinute := AddTo(byMinute, c);
      oldest := Push(oldest, c, Rank);
      assert Candidates() == cs + {c};
    }

    static lemma PushedCandidates(h: seq<Candidate>, c: Candidate)
      ensures forall d :: d in Push(h, c, Rank) <==> d in h || d == c
    {
      forall d ensures d in Push(h, c, Rank) <==> d in h || d == c {
        PushMembers(h, c, d, Rank);
      }
    }

    /** A login below the bounded fingerprints is below the candidates too. */
    lemma RejectedByBoth(x: Entry)
      requires Configured() && SeenOk(Live()) && CandidatesOk(Live())
      requires x !in Ranks(seenOldest, Same) && |seenOldest| == maxSeen && !RankLess(seenOldest[0], x)
      requires DigestsUnique(Live() + {x})
      ensures SeenOk(Live() + {x}) && CandidatesOk(Live() + {x})
    {
      var seen, kept := Ranks(seenOldest, Same), Ranks(oldest, Rank);
      SortedFacts(seenOldest, Same);
      SortedFacts(oldest, Rank);
      TopInsert(seen, Live(), maxSeen, x, seenOldest[0]);
      TopNested(kept, seen, Live(), maxCandidates, maxSeen);
      SubsetSmaller(seen, Live());
      SubsetSmaller(kept, seen);
      if |oldest| > 0 {
        assert Rank(oldest[0]) in seen;
        TopInsert(kept, Live(), maxCandidates, x, Rank(oldest[0]));
      }
    }

    /** What one more observed login adds to the live entries. */
    lemma ObservedOneMore(login: Login, more: set<Login>)
      requires Configured() && more == observed + {login}
      ensures var x := EntryOf(login, fingerprint); var live := Recent(Entries(more, fingerprint), latest - retention);
        && live == (if x.at >= latest - retention then Live() + {x} else Live())
        && DigestsUnique(live)
    {
      EntriesUnique(more, fingerprint);
      assert Entries(more, fingerprint) == Entries(observed, fingerprint) + {EntryOf(login, fingerprint)};
    }

    /** A seen digest is the digest of this very login. */
    lemma SeenMeansLive(login: Login)
      requires Valid() && fingerprint(login) in seenRows
      ensures EntryOf(login, fingerprint) in Live()
    {
      var e :| e in Ranks(seenOldest, Same) && e.digest == fingerprint(login);
      assert e in Entries(observed, fingerprint);
      var l :| l in observed && EntryOf(l, fingerprint) == e;
      assert fingerprint(l) == fingerprint(login);
    }

    method Observe(login: Login)
      requires Valid()
      modifies this
      ensures Valid() && stats == old(stats)
      ensures observed == if Complete(login) then old(observed) + {login} else old(observed)
      ensures latest == if Complete(login) && login.at > old(latest) then login.at else old(latest)
    {
      IndexableExactlyWhen(login);
      hide Indexable, Complete, SeenOk, CandidatesOk;
      if !Indexable(login) {
        return;
      }
      Advance(login.at);
      if login.at < latest - retention {
        TooOld(login);
        Remember(login, Live(), Live());
        return;
      }
      Admit(login);
    }

    lemma TooOld(login: Login)
      requires Configured() && login.at < latest - retention
      ensures Recent(Entries(observed + {login}, fingerprint), latest - retention) == Live()
    {
      ObservedOneMore(login, observed + {login});
    }

    /** A login inside the retention: its fingerprint first, then the candidate. */
    method Admit(login: Login)
      requires Valid() && Indexable(login) && login.at >= latest - retention
      modifies this`observed, this`oldest, this`byMinute, this`seenOldest, this`seenRows
      ensures Valid() && observed == old(observed) + {login}
    {
      hide SeenOk, CandidatesOk, Sorted, Ranks, Indexable;
      ghost var live := Live();
      var digest := fingerprint(login);
      var entry := Entry(login.at, digest);
      ObservedOneMore(login, observed + {login});
      if digest in seenRows {
        SeenMeansLive(login);
        assert live + {entry} == live;
        Remember(login, live, live);
        return;
      }
      if |seenOldest| == maxSeen && !RankLess(seenOldest[0], entry) {
        NotSeen(entry);
        RejectedByBoth(entry);
        Remember(login, live + {entry}, live + {entry});
        return;
      }
      InsertSeen(entry, live);
      Remember(login, live + {entry}, live);
      InsertCandidate(login, live);
    }

    lemma NotSeen(x: Entry)
      requires SeenOk(Live()) && x.digest !in seenRows
      ensures x !in Ranks(seenOldest, Same)
    {
    }

    /** Adds to the history of observed logins, which the source does not keep. */
    ghost method Remember(login: Login, seen: set<Entry>, kept: set<Entry>)
      requires SeenOk(seen) && CandidatesOk(kept)
      modifies this`observed
      ensures observed == old(observed) + {login}
      ensures SeenOk(seen) && CandidatesOk(kept)
    {
      observed := observed + {login};
    }

    method Prune(now: Time)
      requires Valid()
      modifies this
      ensures Valid() && observed == old(observed) && latest == Max(old(latest), now) && stats == old(stats)
    {
      Advance(now);
    }

    /** The answer is that of a plain scan of every candidate held before the call, whatever order
        the minutes and candidates are visited in and whatever the call itself expires. */
    method Lookup(ip: string, host: string, at: Time) returns (m: Match)
      requires Valid()
      modifies this
      ensures Valid() && observed == old(observed) && latest == Max(old(latest), at)
      ensures IsAnswer(m, Matching(old(Candidates()), NormalizedKey(ip, host), at, window))
      ensures Concludes(m, Offers(old(Candidates()), ip, host, at, window))
      ensures stats.matched == old(stats).matched + (if m.inferred then 1 else 0)
      ensures stats.ambiguous == old(stats).ambiguous + (if m.ambiguous then 1 else 0)
      ensures stats.unmatched == old(stats).unmatched + (if m.inferred || m.ambiguous then 0 else 1)
    {
      hide SeenOk, CandidatesOk, IsAnswer, NormalizedKey, Matching, Offers;
      ghost var before := Candidates();
      AllRecent();
      MatchingIsOffers(before, ip, host, at, window);
      ghost var was := latest;
      Advance(at);
      var key := NormalizedKey(ip, host);
      ExpiryKeepsMatches(before, Candidates(), key, at, window, retention, was);
      m := Scan(key, at);
      AnswerConcludes(m, Offers(before, ip, host, at, window));
      stats := Counted(stats, m);
    }

    lemma AllRecent()
      requires Valid()
      ensures forall c :: c in Candidates() ==> c.login.at >= latest - retention
      ensures forall c :: c in Candidates() ==> c.key == NormalizedKey(c.login.clientIP, c.login.host)
    {
      forall c | c in oldest ensures c.login.at >= latest - retention {
        InRanks(oldest, c, Rank);
      }
    }

    lemma InMinute(b: int, key: Key, cs: set<Candidate>)
      requires Valid() && b in byMinute && cs == if key in byMinute[b] then byMinute[b][key] else {}
      ensures forall c :: c in cs <==> c in Candidates() && c.bucket == b && c.key == key
      ensures forall c :: c in cs ==> TrimSpace(c.login.userEmail) != ""
    {
      forall c ensures c in cs <==> c in Candidates() && c.bucket == b && c.key == key {
        assert c in Candidates() <==> Filed(byMinute, c);
      }
    }

    lemma CandidateFacts(key: Key, at: Time)
      requires Valid()
      ensures forall c :: c in Matching(Candidates(), key, at, window) ==> c.bucket in byMinute.Keys
      ensures RanksDiffer(Candidates())
    {
      forall c | c in Candidates() ensures c.bucket in byMinute.Keys {
        assert Filed(byMinute, c);
      }
      forall c, d | c in Candidates() && d in Candidates() && c != d
        ensures RankLess(Rank(c), Rank(d)) || RankLess(Rank(d), Rank(c))
      {
        assert c.digest == fingerprint(c.login) && d.digest == fingerprint(d.login);
      }
    }

    /** The scan of the minute map, in no particular order. */
    method Scan(key: Key, at: Time) returns (m: Match)
      requires Valid()
      ensures IsAnswer(m, Matching(Candidates(), key, at, window))
    {
      hide Valid, Candidates, Matching, IsAnswer, Progress, RanksDiffer, TwoUsers, InMinutes, Windowed;
      ghost var target := Matching(Candidates(), key, at, window);
      ghost var found: set<Candidate> := {};
      var chosen: Option<Candidate> := None;
      var user := "";
      var ambiguous;
      var minutes := byMinute.Keys;
      CandidateFacts(key, at);
      NothingVisited(target, minutes);
      while minutes != {}
        invariant minutes <= byMinute.Keys
        invariant found == InMinutes(target, minutes)
        invariant Progress(found, chosen, user)
        decreases |minutes|
      {
        ghost var some := Member(minutes);
        var b :| b in minutes;
        var cs := if key in byMinute[b] then byMinute[b][key] else {};
        InMinute(b, key, cs);
        MinuteDone(target, cs, Candidates(), key, b, minutes, at, window);
        RanksDifferIn(found + cs, Candidates());
        chosen, user, ambiguous := ScanMinute(cs, at, window, found, chosen, user);
        minutes := minutes - {b};
        found := InMinutes(target, minutes);
        if ambiguous {
          VisitedPart(target, minutes);
          AmbiguousAnswer(found, target);
          return AMBIGUOUS;
        }
      }
      m := if chosen.None? then UNMATCHED
           else Match(chosen.value.login.userEmail, chosen.value.login.rayID, true, false);
      FinalAnswer(m, found, chosen, user);
    }
  }

  // ---- Whole histories ------------------------------------------------------------------

  datatype Op = Observe(login: Login) | Lookup(ip: string, host: string, at: Time) | Prune(at: Time)

  /** The distinct valid logins among the operations. */
  ghost function Observed(ops: seq<Op>): set<Login>
  {
    set o | o in ops && o.Observe? && Complete(o.login) :: o.login
  }

  /** The latest instant any operation carried. */
  ghost function Latest(ops: seq<Op>): (r: Time)
    ensures r >= 0
  {
    if |ops| == 0 then 0 else
      var before := Latest(ops[..|ops| - 1]);
      match ops[|ops| - 1]
      case Observe(login) => if Complete(login) then Max(before, login.at) else before
      case Lookup(_, _, at) => Max(before, at)
      case Prune(at) => Max(before, at)
  }

  ghost function RanksOf(cs: set<Candidate>): set<Entry> { set c | c in cs :: Rank(c) }

  /** The candidates are the highest-ranked unexpired logins of the history, each exactly as its
      login determines it. */
  ghost predicate Retains(cs: set<Candidate>, ops: seq<Op>, retention: Duration, n: nat, fingerprint: Login -> int)
  {
    && (forall c :: c in cs ==> c.login in Observed(ops) && c == NewCandidate(c.login, fingerprint(c.login)))
    && IsTop(RanksOf(cs), Recent(Entries(Observed(ops), fingerprint), Latest(ops) - retention), n)
  }

  method NewWithRetention(window: Duration, retention: Duration, maxCandidates: int, fingerprint: Login -> int)
    returns (idx: MemoryIndex?)
    requires Injective(fingerprint)
    ensures idx == null <==> window <= 0 || retention < window || maxCandidates <= 0
    ensures idx != null ==> fresh(idx) && idx.Valid() && idx.observed == {} && idx.latest == 0
    ensures idx != null ==> idx.window == window && idx.retention == retention
    ensures idx != null ==> idx.maxCandidates == maxCandidates && idx.fingerprint == fingerprint
  {
    if window <= 0 || retention < window || maxCandidates <= 0 {
      return null;
    }
    idx := new MemoryIndex(window, retention, maxCandidates, fingerprint);
  }

  method Apply(idx: MemoryIndex, op: Op, ghost ops: seq<Op>)
    requires idx.Valid() && idx.observed == Observed(ops) && idx.latest == Latest(ops)
    modifies idx
    ensures idx.Valid() && idx.observed == Observed(ops + [op]) && idx.latest == Latest(ops + [op])
  {
    hide MemoryIndex.Valid;
    ObservedStep(ops, op);
    match op
    case Observe(login) => idx.Observe(login);
    case Lookup(ip, host, at) => var _ := idx.Lookup(ip, host, at);
    case Prune(at) => idx.Prune(at);
  }

  lemma ObservedStep(ops: seq<Op>, op: Op)
    ensures Observed(ops + [op]) == Observed(ops) + (if op.Observe? && Complete(op.login) then {op.login} else {})
    ensures (ops + [op])[..|ops|] == ops
  {
    forall l | l in Observed(ops) ensures l in Observed(ops + [op]) {
      assert Observe(l) in ops + [op];
    }
    assert op in ops + [op];
  }

  /** Runs any interleaving of operations on an index. */
  method Replay(idx: MemoryIndex, ops: seq<Op>)
    requires idx.Valid() && idx.observed == {} && idx.latest == 0
    modifies idx
    ensures idx.Valid()
    ensures Retains(idx.Candidates(), ops, idx.retention, idx.maxCandidates, idx.fingerprint)
  {
    hide MemoryIndex.Valid, Retains;
    var i := 0;
    while i < |ops|
      invariant 0 <= i <= |ops|
      invariant idx.Valid() && idx.observed == Observed(ops[..i]) && idx.latest == Latest(ops[..i])
    {
      Apply(idx, ops[i], ops[..i]);
      assert ops[..i] + [ops[i]] == ops[..i + 1];
      i := i + 1;
    }
    assert ops[..i] == ops;
    RetainedByIndex(idx, ops);
  }

  lemma RetainedByIndex(idx: MemoryIndex, ops: seq<Op>)
    requires idx.Valid() && idx.observed == Observed(ops) && idx.latest == Latest(ops)
    ensures Retains(idx.Candidates(), ops, idx.retention, idx.maxCandidates, idx.fingerprint)
  {
    hide Sorted, Holds, Indexable, NewCandidate, IsTop, RanksOf, Ranks, Observed, Latest, MemoryIndex.SeenOk;
    RanksAgree(idx.oldest);
  }

  lemma RanksAgree(h: seq<Candidate>)
    ensures RanksOf(set c | c in h) == Ranks(h, Rank)
  {
    var cs := set c | c in h;
    forall e ensures e in RanksOf(cs) <==> e in Ranks(h, Rank) {
      if e in Ranks(h, Rank) {
        var c := RankHasElement(h, e, Rank);
        assert c in cs;
      }
      if e in RanksOf(cs) {
        var c :| c in cs && Rank(c) == e;
        InRanks(h, c, Rank);
      }
    }
  }

  lemma {:induction false} LatestBounds(ops: seq<Op>, o: Op)
    requires o in ops
    ensures match o
            case Observe(login) => Complete(login) ==> login.at <= Latest(ops)
            case Lookup(_, _, at) => at <= Latest(ops)
            case Prune(at) => at <= Latest(ops)
  {
    var last := |ops| - 1;
    if o != ops[last] {
      assert o in ops[..last];
      LatestBounds(ops[..last], o);
    }
  }

  lemma {:induction false} LatestOnlyGrows(a: seq<Op>, b: seq<Op>)
    requires forall o :: o in a ==> o in b
    ensures Latest(a) <= Latest(b)
  {
    if |a| > 0 {
      LatestOnlyGrows(a[..|a| - 1], b);
      LatestBounds(b, a[|a| - 1]);
    }
  }

  /** Two histories of the same operations, in any order and replayed any number of times, retain
      the same candidates. */
  lemma OrderIndependent(a: seq<Op>, b: seq<Op>, fromA: set<Candidate>, fromB: set<Candidate>, retention: Duration,
                         n: nat,
                         fingerprint: Login -> int)
    requires Injective(fingerprint) && forall o :: o in a <==> o in b
    requires Retains(fromA, a, retention, n, fingerprint) && Retains(fromB, b, retention, n, fingerprint)
    ensures fromA == fromB
  {
    LatestOnlyGrows(a, b);
    LatestOnlyGrows(b, a);
    assert Observed(a) == Observed(b);
    TopUnique(RanksOf(fromA), RanksOf(fromB), Recent(Entries(Observed(a), fingerprint), Latest(a) - retention), n);
    SameRanksSameCandidates(fromA, fromB, fingerprint);
    SameRanksSameCandidates(fromB, fromA, fingerprint);
  }

  lemma SameRanksSameCandidates(a: set<Candidate>, b: set<Candidate>, fingerprint: Login -> int)
    requires Injective(fingerprint) && RanksOf(a) == RanksOf(b)
    requires forall c :: c in a || c in b ==> c == NewCandidate(c.login, fingerprint(c.login))
    ensures a <= b
  {
    forall c | c in a ensures c in b {
      assert Rank(c) in RanksOf(b);
      var d :| d in b && Rank(d) == Rank(c);
      assert fingerprint(c.login) == fingerprint(d.login);
    }
  }
}
