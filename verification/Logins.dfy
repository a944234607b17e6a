/** Login rows, their normalised keys, and what a lookup over a set of candidates answers. */
module Logins {
  import opened Instants
  import opened TopRank

  datatype Login = Login(rayID: string, clientIP: string, host: string, userEmail: string, at: Time)

  datatype Key = Key(ip: string, host: string)

  // ---- Text, for ASCII ------------------------------------------------------------------

  predicate IsSpace(c: char) { c in {' ', '\t', '\n', '\r'} || c as int == 11 || c as int == 12 }

  function TrimLeft(s: string): string
  {
    if |s| > 0 && IsSpace(s[0]) then TrimLeft(s[1..]) else s
  }

  function TrimRight(s: string): string
  {
    if |s| > 0 && IsSpace(s[|s| - 1]) then TrimRight(s[..|s| - 1]) else s
  }

  function TrimSpace(s: string): string { TrimRight(TrimLeft(s)) }

  function Lower(c: char): char { if 'A' <= c <= 'Z' then (c as int + 32) as char else c }

  function ToLower(s: string): (r: string)
    ensures |r| == |s|
  {
    seq(|s|, i requires 0 <= i < |s| => Lower(s[i]))
  }

  function TrimSuffix(s: string, suffix: char): string
  {
    if |s| > 0 && s[|s| - 1] == suffix then s[..|s| - 1] else s
  }

  function NormalizedKey(ip: string, host: string): Key
  {
    Key(TrimSpace(ip), TrimSuffix(ToLower(TrimSpace(host)), '.'))
  }

  /** The identity two logins must share not to be ambiguous. */
  function User(login: Login): string { ToLower(TrimSpace(login.userEmail)) }

  predicate Indexable(login: Login)
  {
    var k := NormalizedKey(login.clientIP, login.host);
    k.ip != "" && k.host != "" && TrimSpace(login.userEmail) != "" && login.at != 0
  }

  // ---- What the normal forms keep apart -------------------------------------------------

  predicate Spaces(s: string, from: nat, to: nat)
    requires to <= |s|
  {
    forall i :: from <= i < to ==> IsSpace(s[i])
  }

  ghost predicate Between(s: string, t: string, i: nat, j: nat)
  {
    i <= j <= |s| && t == s[i..j] && Spaces(s, 0, i) && Spaces(s, j, |s|)
  }

  /** The text between the first and the last character that is no space. */
  ghost predicate Core(s: string, t: string)
  {
    (exists i, j :: Between(s, t, i, j)) && (t != "" ==> !IsSpace(t[0]) && !IsSpace(t[|t| - 1]))
  }

  /** Equal up to the case of letters. */
  predicate SameLetters(a: string, b: string)
  {
    |a| == |b| && forall i :: 0 <= i < |a| ==> a[i] == b[i] || CasePair(a[i], b[i]) || CasePair(b[i], a[i])
  }

  predicate CasePair(upper: char, lower: char) { 'A' <= upper <= 'Z' && lower as int - upper as int == 32 }

  /** Equal up to the spaces around them. */
  ghost predicate SameText(a: string, b: string) { exists t :: Core(a, t) && Core(b, t) }

  /** Equal up to the spaces around them and the case of letters. */
  ghost predicate SameName(a: string, b: string)
  {
    exists s, t :: Core(a, s) && Core(b, t) && SameLetters(s, t)
  }

  /** One final dot less, where there is one. */
  predicate Undotted(s: string, t: string)
  {
    s == t + "." || (s == t && (|s| > 0 ==> s[|s| - 1] != '.'))
  }

  /** Equal up to the spaces around them, the case of letters and one final dot. */
  ghost predicate SameHost(a: string, b: string)
  {
    exists s, t, u, v :: Core(a, s) && Core(b, t) && Undotted(s, u) && Undotted(t, v) && SameLetters(u, v)
  }

  /** A host of which spaces and one final dot leave nothing. */
  ghost predicate NoHost(s: string) { Core(s, "") || Core(s, ".") }

  lemma {:induction false} LeftOf(s: string) returns (i: nat)
    ensures i <= |s| && TrimLeft(s) == s[i..] && Spaces(s, 0, i)
    ensures i < |s| ==> !IsSpace(s[i])
  {
    if |s| > 0 && IsSpace(s[0]) {
      var k := LeftOf(s[1..]);
      assert forall x :: 1 <= x < k + 1 ==> s[x] == s[1..][x - 1];
      return k + 1;
    }
    return 0;
  }

  lemma {:induction false} RightOf(s: string) returns (j: nat)
    ensures j <= |s| && TrimRight(s) == s[..j] && Spaces(s, j, |s|)
    ensures j > 0 ==> !IsSpace(s[j - 1])
  {
    var n := |s|;
    if n > 0 && IsSpace(s[n - 1]) {
      j := RightOf(s[..n - 1]);
      assert s[..n - 1][..j] == s[..j];
      return j;
    }
    return n;
  }

  lemma TrimmedIsCore(s: string)
    ensures Core(s, TrimSpace(s))
  {
    var i := LeftOf(s);
    var left := s[i..];
    var j := RightOf(left);
    assert left[..j] == s[i..i + j];
    assert forall k :: i + j <= k < |s| ==> s[k] == left[k - i];
    assert Between(s, TrimSpace(s), i, i + j);
  }

  /** There is one such text. */
  lemma CoreIsOne(s: string, t: string, u: string)
    requires Core(s, t) && Core(s, u)
    ensures t == u
  {
    var i, j :| Between(s, t, i, j);
    var k, l :| Between(s, u, k, l);
    if t != "" {
      WiderThan(s, t, i, j, k, l);
    }
    if u != "" {
      WiderThan(s, u, k, l, i, j);
    }
  }

  /** A part with spaces alone outside it holds each part that has no space at its ends. */
  lemma WiderThan(s: string, t: string, i: nat, j: nat, k: nat, l: nat)
    requires i < j <= |s| && t == s[i..j] && !IsSpace(t[0]) && !IsSpace(t[|t| - 1])
    requires k <= l <= |s| && Spaces(s, 0, k) && Spaces(s, l, |s|)
    ensures k <= i && j <= l
  {
    assert t[0] == s[i] && t[|t| - 1] == s[j - 1];
  }

  lemma CoreIsTrimmed(s: string, t: string)
    ensures Core(s, t) <==> t == TrimSpace(s)
  {
    TrimmedIsCore(s);
    if Core(s, t) {
      CoreIsOne(s, t, TrimSpace(s));
    }
  }

  lemma LowerIsSame(a: string, b: string)
    ensures ToLower(a) == ToLower(b) <==> SameLetters(a, b)
  {
    if ToLower(a) == ToLower(b) {
      assert |a| == |ToLower(a)| == |b|;
      forall i | 0 <= i < |a| ensures a[i] == b[i] || CasePair(a[i], b[i]) || CasePair(b[i], a[i]) {
        assert Lower(a[i]) == ToLower(a)[i] == ToLower(b)[i] == Lower(b[i]);
      }
    }
  }

  /** Two logins are of one user when their addresses are the same name. */
  lemma SameUserExactlyWhen(a: Login, b: Login)
    ensures User(a) == User(b) <==> SameName(a.userEmail, b.userEmail)
  {
    var s, t := TrimSpace(a.userEmail), TrimSpace(b.userEmail);
    CoreIsTrimmed(a.userEmail, s);
    CoreIsTrimmed(b.userEmail, t);
    LowerIsSame(s, t);
    if SameName(a.userEmail, b.userEmail) {
      var u, v :| Core(a.userEmail, u) && Core(b.userEmail, v) && SameLetters(u, v);
      CoreIsTrimmed(a.userEmail, u);
      CoreIsTrimmed(b.userEmail, v);
    }
  }

  lemma LowerUndotted(s: string, t: string)
    requires Undotted(s, t)
    ensures TrimSuffix(ToLower(s), '.') == ToLower(t)
  {
    if s == t + "." {
      assert ToLower(s)[..|t|] == ToLower(t);
    }
  }

  function WithoutDot(s: string): (t: string)
    ensures Undotted(s, t)
  {
    if |s| > 0 && s[|s| - 1] == '.' then s[..|s| - 1] else s
  }

  /** Two pairs have one key when the address is the same text and the host the same host. */
  lemma SameKeyExactlyWhen(ip: string, host: string, ip': string, host': string)
    ensures NormalizedKey(ip, host) == NormalizedKey(ip', host') <==> SameText(ip, ip') && SameHost(host, host')
  {
    var s, t := TrimSpace(host), TrimSpace(host');
    TrimmedIsCore(ip);
    TrimmedIsCore(host);
    TrimmedIsCore(host');
    CoreIsTrimmed(ip', TrimSpace(ip));
    if SameText(ip, ip') {
      var u :| Core(ip, u) && Core(ip', u);
      CoreIsTrimmed(ip, u);
    } else {
      TrimmedIsCore(ip');
    }
    var u, v := WithoutDot(s), WithoutDot(t);
    LowerUndotted(s, u);
    LowerUndotted(t, v);
    LowerIsSame(u, v);
    if SameHost(host, host') {
      var s', t', u', v' :|
        Core(host, s') && Core(host', t') && Undotted(s', u') && Undotted(t', v') && SameLetters(u', v');
      CoreIsTrimmed(host, s');
      CoreIsTrimmed(host', t');
      LowerIsSame(u', v');
      LowerUndotted(s', u');
      LowerUndotted(t', v');
    }
  }

  /** No part of the login is blank, the host is more than a dot, and it has an instant. */
  ghost predicate Complete(login: Login)
  {
    !Core(login.clientIP, "") && !NoHost(login.host) && !Core(login.userEmail, "") && login.at != 0
  }

  lemma IndexableExactlyWhen(login: Login)
    ensures Indexable(login) <==> Complete(login)
  {
    CoreIsTrimmed(login.clientIP, "");
    CoreIsTrimmed(login.userEmail, "");
    CoreIsTrimmed(login.host, "");
    CoreIsTrimmed(login.host, ".");
    var s := TrimSpace(login.host);
    LowerUndotted(s, WithoutDot(s));
  }

  // ---- Candidates -----------------------------------------------------------------------

  datatype Candidate = Candidate(login: Login, key: Key, bucket: int, digest: int)

  function Rank(c: Candidate): Entry { Entry(c.login.at, c.digest) }

  /** Seconds from the zero time to the Unix epoch. */
  const UNIX_EPOCH := 62_135_596_800

  /** Go's integer division truncates toward zero; whole seconds round down. */
  function MinuteOf(at: Time): int
  {
    var s := at / SECOND - UNIX_EPOCH;
    if s >= 0 then s / 60 else -((-s) / 60)
  }

  /** A login's minute holds its second, once seconds are not negative. */
  lemma MinuteHolds(at: Time)
    requires at >= UNIX_EPOCH * SECOND
    ensures 60 * MinuteOf(at) * SECOND <= at - 62_135_596_800 * SECOND < 60 * (MinuteOf(at) + 1) * SECOND
  {
    var s := at / SECOND - UNIX_EPOCH;
    assert 60 * (s / 60) <= s < 60 * (s / 60 + 1);
  }

  function NewCandidate(login: Login, digest: int): Candidate
  {
    Candidate(login, NormalizedKey(login.clientIP, login.host), MinuteOf(login.at), digest)
  }

  // ---- Lookups --------------------------------------------------------------------------

  datatype Match = Match(userEmail: string, loginRayID: string, inferred: bool, ambiguous: bool)

  const UNMATCHED := Match("", "", false, false)
  const AMBIGUOUS := Match("", "", false, true)

  predicate InWindow(c: Candidate, at: Time, window: Duration)
  {
    c.login.at <= at && at - c.login.at <= window
  }

  predicate Matches(c: Candidate, key: Key, at: Time, window: Duration)
  {
    c.key == key && InWindow(c, at, window)
  }

  function Windowed(cs: set<Candidate>, at: Time, window: Duration): set<Candidate>
  {
    set c | c in cs && InWindow(c, at, window)
  }

  function Matching(cs: set<Candidate>, key: Key, at: Time, window: Duration): set<Candidate>
  {
    set c | c in cs && Matches(c, key, at, window)
  }

  ghost predicate IsLatest(c: Candidate, cs: set<Candidate>)
  {
    c in cs && forall d :: d in cs && d != c ==> RankLess(Rank(d), Rank(c))
  }

  ghost predicate TwoUsers(cs: set<Candidate>)
  {
    exists c, d :: c in cs && d in cs && User(c.login) != User(d.login)
  }

  /** The plain scan: no candidate in the window, candidates of different users, or the details of
      the highest-ranked one. */
  ghost predicate IsAnswer(m: Match, found: set<Candidate>)
  {
    if found == {} then m == UNMATCHED
    else if TwoUsers(found) then m == AMBIGUOUS
    else exists c :: IsLatest(c, found) && m == Match(c.login.userEmail, c.login.rayID, true, false)
  }

  /** The scan has one answer. */
  lemma AnswerIsUnique(m: Match, n: Match, found: set<Candidate>)
    requires IsAnswer(m, found) && IsAnswer(n, found)
    ensures m == n
  {
    if found != {} && !TwoUsers(found) {
      var c :| IsLatest(c, found) && m == Match(c.login.userEmail, c.login.rayID, true, false);
      var d :| IsLatest(d, found) && n == Match(d.login.userEmail, d.login.rayID, true, false);
    }
  }

  /** A login of this pair at most the window before the instant, and not after it. */
  ghost predicate Offered(login: Login, ip: string, host: string, at: Time, window: Duration)
  {
    SameText(login.clientIP, ip) && SameHost(login.host, host) && at - window <= login.at <= at
  }

  /** The candidates of such logins. */
  ghost function Offers(cs: set<Candidate>, ip: string, host: string, at: Time, window: Duration): set<Candidate>
  {
    set c | c in cs && Offered(c.login, ip, host, at, window)
  }

  /** What a caller may conclude from an answer: no such login, two of different users, or the last of one user. */
  ghost predicate Concludes(m: Match, found: set<Candidate>)
  {
    && (m.ambiguous <==> exists c, d :: c in found && d in found && !SameName(c.login.userEmail, d.login.userEmail))
    && (m.inferred <==> !m.ambiguous && found != {})
    && (!m.inferred ==> m.userEmail == "" && m.loginRayID == "")
    && (m.inferred ==>
         exists c :: IsLast(c, found) && m.userEmail == c.login.userEmail && m.loginRayID == c.login.rayID)
  }

  /** The latest one, and of several at one instant the one of the greatest digest. */
  ghost predicate IsLast(c: Candidate, found: set<Candidate>)
  {
    && c in found
    && forall d :: d in found ==> d.login.at < c.login.at || (d.login.at == c.login.at && d.digest <= c.digest)
  }

  lemma MatchingIsOffers(cs: set<Candidate>, ip: string, host: string, at: Time, window: Duration)
    requires forall c :: c in cs ==> c.key == NormalizedKey(c.login.clientIP, c.login.host)
    ensures Matching(cs, NormalizedKey(ip, host), at, window) == Offers(cs, ip, host, at, window)
  {
    forall c | c in cs
      ensures Matches(c, NormalizedKey(ip, host), at, window) <==> Offered(c.login, ip, host, at, window)
    {
      hide NormalizedKey, SameText, SameHost;
      SameKeyExactlyWhen(c.login.clientIP, c.login.host, ip, host);
    }
    hide Matches, Offered, NormalizedKey;
  }

  lemma TwoUsersExactlyWhen(found: set<Candidate>)
    ensures TwoUsers(found) <==>
      exists c, d :: c in found && d in found && !SameName(c.login.userEmail, d.login.userEmail)
  {
    hide User, SameName;
    forall c, d | c in found && d in found
      ensures User(c.login) == User(d.login) <==> SameName(c.login.userEmail, d.login.userEmail)
    {
      SameUserExactlyWhen(c.login, d.login);
    }
  }

  lemma AnswerConcludes(m: Match, found: set<Candidate>)
    requires IsAnswer(m, found)
    ensures Concludes(m, found)
  {
    hide TwoUsers, User, SameName;
    TwoUsersExactlyWhen(found);
    if m.inferred {
      var c :| IsLatest(c, found) && m == Match(c.login.userEmail, c.login.rayID, true, false);
      assert IsLast(c, found);
    }
  }

  /** Expiring candidates for the instant being looked up removes none inside its window, because
      the retention is at least the window. */
  lemma ExpiryKeepsMatches(cs: set<Candidate>, kept: set<Candidate>, key: Key, at: Time, window: Duration,
                           retention: Duration, latest: Time)
    requires window <= retention
    requires forall c :: c in cs ==> c.login.at >= latest - retention
    requires forall c :: c in kept <==> c in cs && c.login.at >= Max(latest, at) - retention
    ensures Matching(kept, key, at, window) == Matching(cs, key, at, window)
  {
  }
}
