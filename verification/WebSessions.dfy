/** `WebSessionManager`: second-factor logins under a sliding attempt window, and the sessions they open. */
module WebSessions {
  import opened Wrappers
  import opened LoginWindow

  const CAPACITY := 10000

  /** A session that was opened and not closed by a logout: the key it was opened with and when it ends. */
  datatype Session = Session(key: string, expires: real)

  type Sessions = map<string, Session>

  /** What a login answers: a token, nothing, or the TypeError of comparing text that is not ASCII. */
  datatype Answer = Issued(token: string) | Refused | Raised

  predicate IsLive(issued: Sessions, digest: string, now: real) {
    digest in issued && now < issued[digest].expires
  }

  /** The digests of the live sessions and when they end. */
  function Live(issued: Sessions, now: real): map<string, real> {
    map digest | digest in issued && now < issued[digest].expires :: issued[digest].expires
  }

  /** The sessions after a login that was answered like this. */
  function WithLogin(issued: Sessions, answer: Answer, hash: string -> string, s: Session): Sessions {
    if answer.Issued? then issued[hash(answer.token) := s] else issued
  }

  predicate IsAscii(s: string) {
    forall i :: 0 <= i < |s| ==> s[i] as int < 128
  }

  lemma NotAscii(s: string)
    ensures !IsAscii(s) <==> exists c :: c in s && c as int >= 128
  {
    if i :| 0 <= i < |s| && s[i] as int >= 128 {
      assert s[i] in s;
    }
  }

  lemma AsciiAppend(s: string, t: string)
    ensures IsAscii(s + t) <==> IsAscii(s) && IsAscii(t)
  {
    assert forall i :: 0 <= i < |s| ==> (s + t)[i] == s[i];
    assert forall i :: 0 <= i < |t| ==> (s + t)[|s| + i] == t[i];
  }

  /** What is remembered of one client's failures: the recent ones, as of the last time they were looked at. */
  ghost predicate Remembered(
    attempts: map<string, seq<real>>, seen: map<string, real>, checks: seq<Check>, clock: real, client: string)
  {
    var failures := Failures(checks, client);
    && (client in attempts <==> client in seen)
    && (client in attempts ==> seen[client] <= clock && attempts[client] == Recent(failures, seen[client]))
    && (client !in attempts ==> failures == [])
    && Sorted(failures) && UpTo(failures, clock)
  }

  ghost predicate AllRemembered(
    attempts: map<string, seq<real>>, seen: map<string, real>, checks: seq<Check>, clock: real)
  {
    forall client {:trigger Remembered(attempts, seen, checks, clock, client)} ::
      Remembered(attempts, seen, checks, clock, client)
  }

  /** What is kept of one session: nothing but its expiry may have been forgotten, and never before it is due. */
  ghost predicate Kept(
    sessions: map<string, real>, credentials: map<string, string>, issued: Sessions, hash: string -> string,
    clock: real, digest: string)
  {
    && (digest in sessions ==> digest in issued && sessions[digest] == issued[digest].expires)
    && (digest in sessions ==> digest in credentials)
    && (IsLive(issued, digest, clock) ==> digest in sessions)
    && (digest in credentials ==> digest in issued && credentials[digest] == hash(issued[digest].key))
  }

  ghost predicate AllKept(
    sessions: map<string, real>, credentials: map<string, string>, issued: Sessions, hash: string -> string,
    clock: real)
  {
    forall digest {:trigger Kept(sessions, credentials, issued, hash, clock, digest)} ::
      Kept(sessions, credentials, issued, hash, clock, digest)
  }

  function Unexpired(sessions: map<string, real>, now: real): map<string, real> {
    map digest | digest in sessions && sessions[digest] > now :: sessions[digest]
  }

  function WithSession(credentials: map<string, string>, sessions: map<string, real>): map<string, string> {
    map digest | digest in credentials && digest in sessions :: credentials[digest]
  }

  lemma SubmapIsSmaller<V, W>(m: map<string, V>, n: map<string, W>)
    requires m.Keys <= n.Keys
    ensures |m| <= |n|
  {
    SubsetIsSmaller(m.Keys, n.Keys);
  }

  lemma {:induction false} SubsetIsSmaller(a: set<string>, b: set<string>)
    requires a <= b
    ensures |a| <= |b|
  {
    if a != {} {
      var x :| x in a;
      SubsetIsSmaller(a - {x}, b - {x});
    }
  }

  /** Dropping what has expired leaves exactly the live sessions, each with its credential. */
  lemma DropExpired(
    sessions: map<string, real>, credentials: map<string, string>, issued: Sessions, hash: string -> string,
    clock: real, now: real)
    requires AllKept(sessions, credentials, issued, hash, clock) && clock <= now
    ensures var left := Unexpired(sessions, now);
            var keys := WithSession(credentials, left);
            && left == Live(issued, now) && AllKept(left, keys, issued, hash, now)
            && |left| <= |sessions| && |keys| == |left|
  {
    var left := Unexpired(sessions, now);
    var keys := WithSession(credentials, left);
    forall digest ensures Kept(left, keys, issued, hash, now, digest) {
      assert Kept(sessions, credentials, issued, hash, clock, digest);
    }
    forall digest ensures digest in left <==> digest in Live(issued, now) {
      assert Kept(sessions, credentials, issued, hash, clock, digest);
    }
    forall digest | digest in left ensures left[digest] == Live(issued, now)[digest] && digest in keys {
      assert Kept(sessions, credentials, issued, hash, clock, digest);
    }
    SubmapIsSmaller(left, sessions);
    assert keys.Keys == left.Keys;
    SubmapIsSmaller(left, keys);
    SubmapIsSmaller(keys, left);
  }

  lemma OpenSession(
    sessions: map<string, real>, credentials: map<string, string>, issued: Sessions, hash: string -> string,
    clock: real, digest: string, s: Session)
    requires AllKept(sessions, credentials, issued, hash, clock)
    ensures AllKept(sessions[digest := s.expires], credentials[digest := hash(s.key)], issued[digest := s], hash, clock)
  {
    var more, keys, all := sessions[digest := s.expires], credentials[digest := hash(s.key)], issued[digest := s];
    forall d ensures Kept(more, keys, all, hash, clock, d) {
      assert Kept(sessions, credentials, issued, hash, clock, d);
    }
  }

  lemma CloseSession(
    sessions: map<string, real>, credentials: map<string, string>, issued: Sessions, hash: string -> string,
    clock: real, digest: string)
    requires AllKept(sessions, credentials, issued, hash, clock)
    ensures AllKept(sessions - {digest}, credentials - {digest}, issued - {digest}, hash, clock)
  {
    var left, keys, others := sessions - {digest}, credentials - {digest}, issued - {digest};
    forall d ensures Kept(left, keys, others, hash, clock, d) {
      assert Kept(sessions, credentials, issued, hash, clock, d);
    }
  }

  lemma ForgetSession(
    sessions: map<string, real>, credentials: map<string, string>, issued: Sessions, hash: string -> string,
    clock: real, now: real, digest: string)
    requires AllKept(sessions, credentials, issued, hash, clock) && clock <= now
    ensures AllKept(sessions, credentials, issued, hash, now)
    ensures (digest in sessions ==> sessions[digest] <= now) ==>
              AllKept(sessions - {digest}, credentials, issued, hash, now)
  {
    forall d ensures Kept(sessions, credentials, issued, hash, now, d) {
      assert Kept(sessions, credentials, issued, hash, clock, d);
    }
    if digest in sessions ==> sessions[digest] <= now {
      var left := sessions - {digest};
      forall d ensures Kept(left, credentials, issued, hash, now, d) {
        assert Kept(sessions, credentials, issued, hash, clock, d);
      }
    }
  }

  lemma LaterStillRemembered(
    attempts: map<string, seq<real>>, seen: map<string, real>, checks: seq<Check>, clock: real, now: real)
    requires AllRemembered(attempts, seen, checks, clock) && clock <= now
    ensures AllRemembered(attempts, seen, checks, now)
  {
    forall c ensures Remembered(attempts, seen, checks, now, c) {
      assert Remembered(attempts, seen, checks, clock, c);
    }
  }

  /** Looking at a client leaves its recent failures. */
  lemma LookAt(
    attempts: map<string, seq<real>>, seen: map<string, real>, checks: seq<Check>, now: real, client: string,
    left: seq<real>)
    requires AllRemembered(attempts, seen, checks, now)
    requires left == Recent(if client in attempts then attempts[client] else [], now)
    ensures left == Recent(Failures(checks, client), now)
    ensures AllRemembered(attempts[client := left], seen[client := now], checks, now)
  {
    assert Remembered(attempts, seen, checks, now, client);
    if client in attempts {
      RecentLater(Failures(checks, client), seen[client], now);
    }
    var looked, times := attempts[client := left], seen[client := now];
    forall c ensures Remembered(looked, times, checks, now, c) {
      assert Remembered(attempts, seen, checks, now, c);
    }
  }

  /** A client's deque after a check. */
  function Noted(window: seq<real>, now: real, passed: bool): seq<real> {
    if passed then [] else window + [now]
  }

  /** A check while fewer than `n` failures are recent: remembered, and the spacing is kept. */
  lemma CheckIsRemembered(
    attempts: map<string, seq<real>>, seen: map<string, real>, checks: seq<Check>, now: real, client: string,
    passed: bool, n: nat)
    requires AllRemembered(attempts, seen, checks, now) && AlwaysSpaced(checks, n)
    requires client in attempts && client in seen && seen[client] == now && |attempts[client]| < n
    ensures AllRemembered(attempts[client := Noted(attempts[client], now, passed)], seen,
                          checks + [Check(client, now, passed)], now)
    ensures Noted(attempts[client], now, passed)
         == Recent(Failures(checks + [Check(client, now, passed)], client), now)
    ensures AlwaysSpaced(checks + [Check(client, now, passed)], n)
  {
    var check := Check(client, now, passed);
    var failures := Failures(checks, client);
    assert Remembered(attempts, seen, checks, now, client);
    assert SpacedAt(checks, client, n, |checks|);
    assert checks[..|checks|] == checks;
    FailuresSnoc(checks, check, client);
    if !passed {
      SpacedSnoc(failures, now, n);
      RecentSnoc(failures, now, now);
    }
    AlwaysSpacedSnoc(checks, check, n);
    var after := attempts[client := Noted(attempts[client], now, passed)];
    forall c ensures Remembered(after, seen, checks + [check], now, c) {
      assert Remembered(attempts, seen, checks, now, c);
      FailuresSnoc(checks, check, c);
    }
  }

  class WebSessionManager {
    const enabled: bool
    const apiKey: string
    const ttl: real
    const maxAttempts: int
    /** The hex digest of a token or key, and the code that is valid at a time. */
    const hash: string -> string
    const totp: real -> string
    var sessions: map<string, real>
    var sessionCredentials: map<string, string>
    var attempts: map<string, seq<real>>
    /** Every check carried out, when each client was last looked at, every session opened and not logged out,
        and the time of the last call. */
    ghost var checks: seq<Check>
    ghost var seen: map<string, real>
    ghost var issued: Sessions
    ghost var clock: real

    ghost function Allowance(): nat {
      if maxAttempts < 0 then 0 else maxAttempts
    }

    ghost predicate Valid() reads this {
      && |attempts| <= CAPACITY && |sessions| <= CAPACITY && |sessionCredentials| <= CAPACITY
      && AllRemembered(attempts, seen, checks, clock)
      && AlwaysSpaced(checks, Allowance())
      && AllKept(sessions, sessionCredentials, issued, hash, clock)
    }

    constructor (enabled: bool, apiKey: string, ttl: real, maxAttempts: int, hash: string -> string,
                 totp: real -> string)
      ensures Valid() && checks == [] && issued == map[] && clock == 0.0
      ensures this.enabled == enabled && this.apiKey == apiKey && this.ttl == ttl && this.maxAttempts == maxAttempts
      ensures this.hash == hash && this.totp == totp
    {
      this.enabled, this.apiKey, this.ttl, this.maxAttempts := enabled, apiKey, ttl, maxAttempts;
      this.hash, this.totp := hash, totp;
      sessions, sessionCredentials, attempts := map[], map[], map[];
      checks, seen, issued, clock := [], map[], map[], 0.0;
    }

    /** Whether comparing these would raise. */
    predicate Raises(key: string, code: string, verified: bool) {
      || (!verified && apiKey != "" && !(IsAscii(key) && IsAscii(apiKey)))
      || (|code| == 6 && !IsAscii(code))
    }

    predicate Passes(key: string, code: string, now: real, verified: bool) {
      && (verified || (apiKey != "" && key == apiKey))
      && |code| == 6
      && (code == totp(now - 30.0) || code == totp(now) || code == totp(now + 30.0))
    }

    /** Whether a client is turned away before anything is checked. */
    ghost predicate TurnedAway(client: string, now: real) reads this {
      (client !in attempts && |attempts| >= CAPACITY) || |Recent(Failures(checks, client), now)| >= maxAttempts
    }

    /** Whether a login opens a session. */
    ghost predicate Admits(client: string, key: string, code: string, now: real, verified: bool) reads this {
      && !TurnedAway(client, now)
      && !Raises(key, code, verified) && Passes(key, code, now, verified)
      && |Live(issued, now)| < CAPACITY
    }

    /** Expired sessions and the credentials without a session are dropped. */
    method Prune(now: real)
      requires Valid() && clock <= now
      modifies this`sessions, this`sessionCredentials, this`clock
      ensures Valid() && clock == now
      ensures sessions == Live(issued, now) && |sessionCredentials| == |sessions|
    {
      DropExpired(sessions, sessionCredentials, issued, hash, clock, now);
      LaterStillRemembered(attempts, seen, checks, clock, now);
      sessions := Unexpired(sessions, now);
      sessionCredentials := WithSession(sessionCredentials, sessions);
      clock := now;
    }

    /** The client's deque without what is too old. */
    method Look(client: string, now: real) returns (count: nat)
      requires Valid() && clock == now && (client in attempts || |attempts| < CAPACITY)
      modifies this`attempts, this`seen
      ensures Valid() && client in attempts && seen == old(seen)[client := now]
      ensures count == |attempts[client]|
      ensures attempts == old(attempts)[client := Recent(Failures(checks, client), now)]
    {
      var window := if client in attempts then attempts[client] else [];
      ghost var before := window;
      while window != [] && window[0] <= now - 300.0
        invariant Recent(window, now) == Recent(before, now)
        invariant Sorted(before) ==> Sorted(window)
      {
        window := window[1..];
      }
      assert Remembered(attempts, seen, checks, now, client);
      SortedRecent(before, Failures(checks, client), if client in seen then seen[client] else now);
      AllRecent(window, now);
      LookAt(attempts, seen, checks, now, client, window);
      attempts := attempts[client := window];
      seen := seen[client := now];
      return |window|;
    }

    /** `login`. A client is turned away if 10000 others are remembered, or if `maxAttempts` of its checks have failed
        in the last 300 seconds since its last success. Otherwise comparing text that is not ASCII raises, and a check is
        recorded. It passes if the key is verified or the configured one, and the code has six characters and is that
        of now or of 30 seconds before or after. A passed check opens a session while fewer than 10000 are live. */
    method Login(client: string, key: string, code: string, now: real, verified: bool) returns (answer: Answer)
      requires Valid() && clock <= now
      modifies this
      ensures Valid() && clock == now
      ensures
        var away := || (client !in old(attempts) && |old(attempts)| >= 10000)
                    || |Recent(Failures(old(checks), client), now)| >= maxAttempts;
        var raises := || (!verified && apiKey != "" && exists c :: c in key + apiKey && c as int >= 128)
                      || (|code| == 6 && exists c :: c in code && c as int >= 128);
        var passes := && (verified || (apiKey != "" && key == apiKey))
                      && |code| == 6 && code in [totp(now - 30.0), totp(now), totp(now + 30.0)];
        && (answer.Raised? <==> !away && raises)
        && (answer.Issued? <==> !away && !raises && passes && |Live(old(issued), now)| < 10000)
        && checks == old(checks) + (if away || raises then [] else [Check(client, now, passes)])
      ensures issued == if answer.Issued? then old(issued)[hash(answer.token) := Session(key, now + ttl)]
                        else old(issued)
      ensures client in attempts ==> attempts[client] == Recent(Failures(checks, client), now)
    {
      answer := Enter(client, key, code, now, verified);
      NotAscii(code);
      NotAscii(key + apiKey);
      assert IsAscii(key + apiKey) <==> IsAscii(key) && IsAscii(apiKey) by {
        AsciiAppend(key, apiKey);
      }
      assert checks == old(checks) || checks == old(checks) + [Check(client, now, Passes(key, code, now, verified))];
    }

    /** The same in terms of what turns a client away, what raises and what passes. */
    method Enter(client: string, key: string, code: string, now: real, verified: bool) returns (answer: Answer)
      requires Valid() && clock <= now
      modifies this
      ensures Valid() && clock == now
      ensures if old(TurnedAway(client, now)) || Raises(key, code, verified)
              then checks == old(checks)
              else checks == old(checks) + [Check(client, now, Passes(key, code, now, verified))]
      ensures answer.Raised? <==> !old(TurnedAway(client, now)) && Raises(key, code, verified)
      ensures answer.Issued? <==> old(Admits(client, key, code, now, verified))
      ensures issued == WithLogin(old(issued), answer, hash, Session(key, now + ttl))
      ensures client in attempts ==> attempts[client] == Recent(Failures(checks, client), now)
    {
      Prune(now);
      if client !in attempts && |attempts| >= 10000 {
        return Refused;
      }
      var count := Look(client, now);
      if count >= maxAttempts {
        return Refused;
      }
      answer := Attempt(client, key, code, now, verified);
    }

    /** The check of a client that was not turned away. */
    method Attempt(client: string, key: string, code: string, now: real, verified: bool) returns (answer: Answer)
      requires Valid() && clock == now && client in attempts && client in seen && seen[client] == now
      requires |attempts[client]| < maxAttempts && sessions == Live(issued, now) && |sessionCredentials| == |sessions|
      modifies this
      ensures Valid() && clock == now
      ensures checks == if Raises(key, code, verified) then old(checks)
                        else old(checks) + [Check(client, now, Passes(key, code, now, verified))]
      ensures answer.Raised? <==> Raises(key, code, verified)
      ensures answer.Issued? <==>
                && !Raises(key, code, verified) && Passes(key, code, now, verified)
                && |Live(old(issued), now)| < CAPACITY
      ensures issued == WithLogin(old(issued), answer, hash, Session(key, now + ttl))
      ensures client in attempts && attempts[client] == Recent(Failures(checks, client), now)
    {
      assert Remembered(attempts, seen, checks, now, client);
      if !verified && apiKey != "" && !(IsAscii(key) && IsAscii(apiKey)) {
        return Raised;
      }
      var validKey := verified || (apiKey != "" && key == apiKey);
      if |code| == 6 && !IsAscii(code) {
        return Raised;
      }
      var validCode := |code| == 6 && (code == totp(now - 30.0) || code == totp(now) || code == totp(now + 30.0));
      var passed := validKey && validCode;
      Record(client, now, passed);
      if !passed || |sessions| >= 10000 {
        return Refused;
      }
      var token := *;
      Open(token, key, now);
      return Issued(token);
    }

    /** A failed check is remembered, a passed one clears the client. */
    method Record(client: string, now: real, passed: bool)
      requires Valid() && clock == now && client in attempts && client in seen && seen[client] == now
      requires |attempts[client]| < maxAttempts
      modifies this`attempts, this`checks
      ensures Valid() && checks == old(checks) + [Check(client, now, passed)]
      ensures attempts == old(attempts)[client := Recent(Failures(checks, client), now)]
    {
      CheckIsRemembered(attempts, seen, checks, now, client, passed, Allowance());
      attempts := attempts[client := Noted(attempts[client], now, passed)];
      checks := checks + [Check(client, now, passed)];
    }

    method Open(token: string, key: string, now: real)
      requires Valid() && clock == now && |sessions| < CAPACITY && |sessionCredentials| == |sessions|
      modifies this`sessions, this`sessionCredentials, this`issued
      ensures Valid() && issued == old(issued)[hash(token) := Session(key, now + ttl)]
    {
      OpenSession(sessions, sessionCredentials, issued, hash, clock, hash(token), Session(key, now + ttl));
      sessions := sessions[hash(token) := now + ttl];
      sessionCredentials := sessionCredentials[hash(token) := hash(key)];
      issued := issued[hash(token) := Session(key, now + ttl)];
    }

    /** A token is valid exactly while its session has been neither logged out nor outlived. */
    method Validate(token: string, now: real) returns (valid: bool)
      requires Valid() && clock <= now && 0.0 <= now
      modifies this`sessions, this`clock
      ensures Valid() && clock == now && sessionCredentials == old(sessionCredentials)
      ensures valid <==> hash(token) in issued && now < issued[hash(token)].expires
      ensures sessions == if valid then old(sessions) else old(sessions) - {hash(token)}
    {
      var digest := hash(token);
      var expires := if digest in sessions then sessions[digest] else 0.0;
      assert Kept(sessions, sessionCredentials, issued, hash, clock, digest);
      ForgetSession(sessions, sessionCredentials, issued, hash, clock, now, digest);
      LaterStillRemembered(attempts, seen, checks, clock, now);
      clock := now;
      if expires <= now {
        SubmapIsSmaller(sessions - {digest}, sessions);
        sessions := sessions - {digest};
        return false;
      }
      return true;
    }

    /** Every live session still knows the key it was opened with. */
    method Credential(token: string, now: real) returns (digest: Option<string>)
      requires Valid() && clock <= now && 0.0 <= now
      modifies this`sessions, this`clock
      ensures Valid() && clock == now
      ensures digest == if hash(token) in issued && now < issued[hash(token)].expires
                        then Some(hash(issued[hash(token)].key)) else None
    {
      var valid := Validate(token, now);
      assert Kept(sessions, sessionCredentials, issued, hash, clock, hash(token));
      if valid && hash(token) in sessionCredentials {
        return Some(sessionCredentials[hash(token)]);
      }
      return None;
    }

    method Logout(token: string)
      requires Valid()
      modifies this`sessions, this`sessionCredentials, this`issued
      ensures Valid() && issued == old(issued) - {hash(token)}
    {
      CloseSession(sessions, sessionCredentials, issued, hash, clock, hash(token));
      SubmapIsSmaller(sessions - {hash(token)}, sessions);
      SubmapIsSmaller(sessionCredentials - {hash(token)}, sessionCredentials);
      sessions := sessions - {hash(token)};
      sessionCredentials := sessionCredentials - {hash(token)};
      issued := issued - {hash(token)};
    }

    /** Over any run of calls: between two logins that pass, at most `maxAttempts` fail in any 300 seconds. */
    lemma GuessesAreBounded(client: string, moment: nat, from: real, failed: set<nat>)
      requires Valid() && moment <= |checks|
      requires forall i :: i in failed ==>
        && i < moment && checks[i].client == client && !checks[i].passed && from <= checks[i].at < from + 300.0
        && forall j :: i < j < moment && checks[j].client == client ==> !checks[j].passed
      ensures |failed| <= if maxAttempts < 0 then 0 else maxAttempts
    {
      FailuresAreBounded(checks, client, Allowance(), moment, from, failed);
    }
  }

  lemma SortedRecent(window: seq<real>, failures: seq<real>, at: real)
    requires window == [] || window == Recent(failures, at)
    requires Sorted(failures)
    ensures Sorted(window)
  {
    RecentIsSuffix(failures, at);
  }
}
