/** Who a credential stands for, directly and through a session: `credential_principal`, `resolve_principal`. */
module Principals {
  import opened Wrappers
  import opened LoginWindow
  import opened WebSessions

  datatype Role = Administrator | Analyst | Viewer

  /** A row of the users table; `role` is None for a text that names no role. */
  datatype User = User(id: string, role: Option<Role>, enabled: bool, credential: string)

  /** A configured key; empty where none is configured. */
  datatype RoleKey = RoleKey(role: Role, key: string)

  datatype Principal = Principal(userId: string, role: Role, session: string)

  type Hash = string -> string

  ghost predicate Injective(hash: Hash) {
    forall x, y {:trigger hash(x), hash(y)} :: hash(x) == hash(y) ==> x == y
  }

  ghost predicate NeverEmpty(hash: Hash) {
    forall x :: hash(x) != ""
  }

  function Prefix(digest: string): string {
    if |digest| <= 24 then digest else digest[..24]
  }

  function RoleName(role: Role): string {
    match role
    case Administrator => "administrator"
    case Analyst => "analyst"
    case Viewer => "viewer"
  }

  function WithCredential(users: seq<User>, digest: string): seq<User> {
    if users == [] then []
    else (if users[0].credential == digest then [users[0]] else []) + WithCredential(users[1..], digest)
  }

  /** The one user with this credential; several count as none. */
  function UserByCredential(users: seq<User>, digest: string): Option<User> {
    var found := WithCredential(users, digest);
    if |found| == 1 then Some(found[0]) else None
  }

  function OfUser(user: User, session: string): Option<Principal> {
    if user.enabled && user.role.Some? then Some(Principal(user.id, user.role.value, session)) else None
  }

  function OfRole(role: Role, session: string): Principal {
    Principal("configured:" + RoleName(role), role, session)
  }

  /** The configured roles of a key. */
  function Matching(keys: seq<RoleKey>, token: string): seq<Role> {
    if keys == [] then []
    else (if keys[0].key != "" && keys[0].key == token then [keys[0].role] else []) + Matching(keys[1..], token)
  }

  /** The first configured role whose key has this digest. */
  function FirstWithDigest(keys: seq<RoleKey>, hash: Hash, digest: string): Option<Role> {
    if keys == [] then None
    else if keys[0].key != "" && hash(keys[0].key) == digest then Some(keys[0].role)
    else FirstWithDigest(keys[1..], hash, digest)
  }

  function CredentialPrincipal(users: seq<User>, keys: seq<RoleKey>, hash: Hash, token: string): Option<Principal> {
    if token == "" || |token| > 4096 then None
    else
      match UserByCredential(users, hash(token))
      case Some(user) => OfUser(user, Prefix(hash(token)))
      case None =>
        var matches := Matching(keys, token);
        if |matches| == 1 then Some(OfRole(matches[0], Prefix(hash(token)))) else None
  }

  /** What a session stands for, given the digest it recorded at login and its own token. */
  function SessionPrincipal(users: seq<User>, keys: seq<RoleKey>, hash: Hash, digest: string, token: string)
    : Option<Principal>
  {
    if digest == "" then None
    else
      match UserByCredential(users, digest)
      case Some(user) => OfUser(user, Prefix(hash(token)))
      case None =>
        match FirstWithDigest(keys, hash, digest)
        case Some(role) => Some(OfRole(role, Prefix(hash(token))))
        case None => None
  }

  /** The principal of `key` as it is now, under the session's own identifier. */
  function Proxy(users: seq<User>, keys: seq<RoleKey>, hash: Hash, key: string, token: string): Option<Principal> {
    match CredentialPrincipal(users, keys, hash, key)
    case Some(principal) => Some(principal.(session := Prefix(hash(token))))
    case None => None
  }

  ghost predicate IsOnlyUser(users: seq<User>, digest: string, i: int) {
    && 0 <= i < |users| && users[i].credential == digest
    && forall j :: 0 <= j < |users| && users[j].credential == digest ==> j == i
  }

  ghost predicate IsOnlyKey(keys: seq<RoleKey>, token: string, i: int) {
    && 0 <= i < |keys| && keys[i].key == token
    && forall j :: 0 <= j < |keys| && keys[j].key == token ==> j == i
  }

  lemma {:induction false} NoUser(users: seq<User>, digest: string)
    ensures WithCredential(users, digest) == [] <==> forall i :: 0 <= i < |users| ==> users[i].credential != digest
  {
    if users != [] {
      NoUser(users[1..], digest);
      assert forall i :: 1 <= i < |users| ==> users[i] == users[1..][i - 1];
    }
  }

  lemma OnlyUserInRest(users: seq<User>, digest: string, i: int)
    requires users != [] && users[0].credential != digest
    ensures IsOnlyUser(users, digest, i) <==> IsOnlyUser(users[1..], digest, i - 1)
  {
    var rest := users[1..];
    assert forall j :: 1 <= j < |users| ==> users[j] == rest[j - 1];
  }

  /** A credential finds a user exactly if it is the credential of only one. */
  lemma {:induction false} FoundIsOnly(users: seq<User>, digest: string)
    ensures forall i :: IsOnlyUser(users, digest, i) ==> UserByCredential(users, digest) == Some(users[i])
    ensures UserByCredential(users, digest).Some? ==> exists i :: IsOnlyUser(users, digest, i)
  {
    if users != [] {
      NoUser(users[1..], digest);
      if users[0].credential == digest {
        assert forall i :: 1 <= i < |users| ==> users[i] == users[1..][i - 1];
        if WithCredential(users[1..], digest) == [] {
          assert IsOnlyUser(users, digest, 0);
        }
      } else {
        FoundIsOnly(users[1..], digest);
        forall i ensures IsOnlyUser(users, digest, i) <==> IsOnlyUser(users[1..], digest, i - 1) {
          OnlyUserInRest(users, digest, i);
        }
        if i :| IsOnlyUser(users[1..], digest, i) {
          assert IsOnlyUser(users, digest, i + 1);
        }
      }
    }
  }

  lemma {:induction false} NoKey(keys: seq<RoleKey>, token: string)
    requires token != ""
    ensures Matching(keys, token) == [] <==> forall i :: 0 <= i < |keys| ==> keys[i].key != token
  {
    if keys != [] {
      NoKey(keys[1..], token);
      assert forall i :: 1 <= i < |keys| ==> keys[i] == keys[1..][i - 1];
    }
  }

  lemma OnlyKeyInRest(keys: seq<RoleKey>, token: string, i: int)
    requires keys != [] && keys[0].key != token
    ensures IsOnlyKey(keys, token, i) <==> IsOnlyKey(keys[1..], token, i - 1)
  {
    var rest := keys[1..];
    assert forall j :: 1 <= j < |keys| ==> keys[j] == rest[j - 1];
  }

  /** A text matches one role exactly if it is the key of only one. */
  lemma {:induction false} MatchedIsOnly(keys: seq<RoleKey>, token: string)
    requires token != ""
    ensures forall i :: IsOnlyKey(keys, token, i) ==> Matching(keys, token) == [keys[i].role]
    ensures |Matching(keys, token)| == 1 ==> exists i :: IsOnlyKey(keys, token, i)
  {
    if keys != [] {
      NoKey(keys[1..], token);
      if keys[0].key == token {
        assert forall i :: 1 <= i < |keys| ==> keys[i] == keys[1..][i - 1];
        if Matching(keys[1..], token) == [] {
          assert IsOnlyKey(keys, token, 0);
        }
      } else {
        MatchedIsOnly(keys[1..], token);
        forall i ensures IsOnlyKey(keys, token, i) <==> IsOnlyKey(keys[1..], token, i - 1) {
          OnlyKeyInRest(keys, token, i);
        }
        if i :| IsOnlyKey(keys[1..], token, i) {
          assert IsOnlyKey(keys, token, i + 1);
        }
      }
    }
  }

  /** `p` is the enabled user with a known role who alone has the credential with this digest. */
  ghost predicate IsUserPrincipal(users: seq<User>, digest: string, p: Principal) {
    exists i :: IsOnlyUser(users, digest, i) && users[i].enabled
                && users[i].role == Some(p.role) && p.userId == users[i].id
  }

  /** `p` is the configured role whose key alone this text is. */
  ghost predicate IsRolePrincipal(keys: seq<RoleKey>, token: string, p: Principal) {
    exists i :: IsOnlyKey(keys, token, i) && p.role == keys[i].role
                && p.userId == (match keys[i].role
                                case Administrator => "configured:administrator"
                                case Analyst => "configured:analyst"
                                case Viewer => "configured:viewer")
  }

  /** `p` is whom `key` stands for: the user who has it or, only if it is no one user's, the configured role. A disabled
      user is nobody, even with a role's key. */
  ghost predicate StandsFor(users: seq<User>, keys: seq<RoleKey>, hash: Hash, key: string, p: Principal) {
    && 1 <= |key| <= 4096
    && (IsUserPrincipal(users, hash(key), p)
        || ((forall i :: !IsOnlyUser(users, hash(key), i)) && IsRolePrincipal(keys, key, p)))
  }

  /** The identifier of a session: the first 24 characters of the digest of its token. */
  predicate IsSessionOf(session: string, digest: string) {
    session <= digest && |session| == if |digest| < 24 then |digest| else 24
  }

  lemma PrefixIs(digest: string, session: string)
    ensures session == Prefix(digest) <==> IsSessionOf(session, digest)
  {
  }

  lemma RoleText(role: Role)
    ensures OfRole(role, "").userId == match role
                                       case Administrator => "configured:administrator"
                                       case Analyst => "configured:analyst"
                                       case Viewer => "configured:viewer"
  {
    assert "configured:" + "administrator" == "configured:administrator";
    assert "configured:" + "analyst" == "configured:analyst";
    assert "configured:" + "viewer" == "configured:viewer";
  }

  /** Exactly whom a credential stands for, field by field. */
  lemma PrincipalIff(users: seq<User>, keys: seq<RoleKey>, hash: Hash, token: string, p: Principal)
    ensures CredentialPrincipal(users, keys, hash, token) == Some(p)
       <==> StandsFor(users, keys, hash, token, p) && IsSessionOf(p.session, hash(token))
  {
    FoundIsOnly(users, hash(token));
    PrefixIs(hash(token), p.session);
    RoleText(p.role);
    if token != "" {
      MatchedIsOnly(keys, token);
    }
  }

  lemma NobodyIff(users: seq<User>, keys: seq<RoleKey>, hash: Hash, token: string)
    ensures CredentialPrincipal(users, keys, hash, token) == None
       <==> forall p :: !StandsFor(users, keys, hash, token, p)
  {
    var found := CredentialPrincipal(users, keys, hash, token);
    if found.Some? {
      PrincipalIff(users, keys, hash, token, found.value);
    }
    if p :| StandsFor(users, keys, hash, token, p) {
      PrincipalIff(users, keys, hash, token, p.(session := Prefix(hash(token))));
      PrefixIs(hash(token), Prefix(hash(token)));
      StandsForAny(users, keys, hash, token, p, Prefix(hash(token)));
    }
  }

  lemma StandsForAny(users: seq<User>, keys: seq<RoleKey>, hash: Hash, token: string, p: Principal, session: string)
    ensures StandsFor(users, keys, hash, token, p.(session := session)) <==> StandsFor(users, keys, hash, token, p)
  {
  }

  predicate DistinctKeys(keys: seq<RoleKey>) {
    forall i, j :: 0 <= i < j < |keys| && keys[i].key != "" ==> keys[i].key != keys[j].key
  }

  lemma {:induction false} DistinctMatchOnce(keys: seq<RoleKey>, token: string)
    requires DistinctKeys(keys)
    ensures |Matching(keys, token)| <= 1
  {
    if keys != [] {
      DistinctMatchOnce(keys[1..], token);
      if keys[0].key != "" && keys[0].key == token {
        NoMatch(keys[1..], token);
      }
    }
  }

  lemma {:induction false} NoMatch(keys: seq<RoleKey>, token: string)
    requires forall i :: 0 <= i < |keys| ==> keys[i].key != token
    ensures Matching(keys, token) == []
  {
    if keys != [] {
      NoMatch(keys[1..], token);
    }
  }

  /** Looking a key up by digest finds the first of the roles that looking it up by text finds. */
  lemma {:induction false} DigestFindsFirst(keys: seq<RoleKey>, hash: Hash, key: string)
    requires Injective(hash)
    ensures var matches := Matching(keys, key);
            FirstWithDigest(keys, hash, hash(key)) == if matches == [] then None else Some(matches[0])
  {
    if keys != [] {
      DigestFindsFirst(keys[1..], hash, key);
      assert hash(keys[0].key) == hash(key) <==> keys[0].key == key;
    }
  }

  /** A session stands for its login key exactly unless two configured roles share that key and no user has it. */
  lemma {:induction false} ProxyIff(users: seq<User>, keys: seq<RoleKey>, hash: Hash, key: string, token: string)
    requires Injective(hash) && NeverEmpty(hash) && 1 <= |key| <= 4096
    ensures SessionPrincipal(users, keys, hash, hash(key), token) == Proxy(users, keys, hash, key, token)
       <==> UserByCredential(users, hash(key)).Some? || |Matching(keys, key)| <= 1
  {
    DigestFindsFirst(keys, hash, key);
    assert hash(key) != "";
  }

  /** With distinct configured keys a session is always a faithful proxy, whatever became of the users since. */
  lemma {:induction false} SessionIsProxy(users: seq<User>, keys: seq<RoleKey>, hash: Hash, key: string, token: string)
    requires Injective(hash) && NeverEmpty(hash) && 1 <= |key| <= 4096 && DistinctKeys(keys)
    ensures SessionPrincipal(users, keys, hash, hash(key), token) == Proxy(users, keys, hash, key, token)
  {
    ProxyIff(users, keys, hash, key, token);
    DistinctMatchOnce(keys, key);
  }

  /** A session can only have been opened with a key that was a principal. */
  predicate UsableKey(issued: Sessions, digest: string) {
    digest in issued ==> 1 <= |issued[digest].key| <= 4096
  }

  ghost predicate UsableKeys(issued: Sessions) {
    forall digest {:trigger UsableKey(issued, digest)} :: UsableKey(issued, digest)
  }

  lemma UsableKeysWithLogin(issued: Sessions, answer: Answer, hash: Hash, s: Session)
    requires UsableKeys(issued) && 1 <= |s.key| <= 4096
    ensures UsableKeys(WithLogin(issued, answer, hash, s))
  {
    var after := WithLogin(issued, answer, hash, s);
    forall d ensures UsableKey(after, d) {
      assert UsableKey(issued, d);
    }
  }

  lemma UsableKeysWithout(issued: Sessions, digest: string)
    requires UsableKeys(issued)
    ensures UsableKeys(issued - {digest})
  {
    var left := issued - {digest};
    forall d ensures UsableKey(left, d) {
      assert UsableKey(issued, d);
    }
  }

  /** The authentication state of the service: users that change at any time, and the sessions. */
  class AuthState {
    const keys: seq<RoleKey>
    const web: WebSessionManager
    var users: seq<User>

    ghost predicate Valid() reads this, web {
      && web.Valid() && DistinctKeys(keys)
      && UsableKeys(web.issued)
    }

    constructor (keys: seq<RoleKey>, web: WebSessionManager)
      requires web.Valid() && web.issued == map[] && DistinctKeys(keys)
      ensures Valid() && this.keys == keys && this.web == web
    {
      this.keys, this.web := keys, web;
      users := [];
    }

    /** Users are added, renamed, given other roles or credentials, disabled or removed. */
    method ChangeUsers(changed: seq<User>)
      requires Valid()
      modifies this
      ensures Valid() && users == changed
    {
      users := changed;
    }

    /** POST /auth/session: only a key that is a principal at this moment can open a session. */
    method CreateSession(client: string, key: string, code: string, now: real) returns (answer: Answer)
      requires Valid() && web.clock <= now
      modifies web
      ensures Valid()
      ensures answer.Issued? <==>
                && web.enabled && (exists p :: StandsFor(users, keys, web.hash, key, p))
                && !(client !in old(web.attempts) && |old(web.attempts)| >= 10000)
                && |Recent(Failures(old(web.checks), client), now)| < web.maxAttempts
                && |code| == 6 && (forall c :: c in code ==> c as int < 128)
                && code in [web.totp(now - 30.0), web.totp(now), web.totp(now + 30.0)]
                && |Live(old(web.issued), now)| < 10000
      ensures web.issued == WithLogin(old(web.issued), answer, web.hash, Session(key, now + web.ttl))
    {
      if !web.enabled {
        return Refused;
      }
      NobodyIff(users, keys, web.hash, key);
      var principal := CredentialPrincipal(users, keys, web.hash, key);
      if principal.None? {
        return Refused;
      }
      answer := LoginWith(client, key, code, now);
    }

    /** The login of a key whose principal is known. */
    method LoginWith(client: string, key: string, code: string, now: real) returns (answer: Answer)
      requires Valid() && web.clock <= now && 1 <= |key| <= 4096
      modifies web
      ensures Valid()
      ensures answer.Issued? <==>
                && !(client !in old(web.attempts) && |old(web.attempts)| >= 10000)
                && |Recent(Failures(old(web.checks), client), now)| < web.maxAttempts
                && |code| == 6 && (forall c :: c in code ==> c as int < 128)
                && code in [web.totp(now - 30.0), web.totp(now), web.totp(now + 30.0)]
                && |Live(old(web.issued), now)| < 10000
      ensures web.issued == WithLogin(old(web.issued), answer, web.hash, Session(key, now + web.ttl))
    {
      answer := web.Login(client, key, code, now, true);
      UsableKeysWithLogin(old(web.issued), answer, web.hash, Session(key, now + web.ttl));
    }

    /** Whom a bearer token stands for. Through a session it is whom the login key stands for at this moment, for
        as long as the session has been neither logged out nor outlived. */
    method Resolve(token: string, now: real) returns (principal: Option<Principal>)
      requires Valid() && web.clock <= now && 0.0 <= now
      requires Injective(web.hash) && NeverEmpty(web.hash)
      modifies web
      ensures Valid() && web.issued == old(web.issued)
      ensures principal == if !web.enabled then CredentialPrincipal(users, keys, web.hash, token)
                           else if IsLive(web.issued, web.hash(token), now)
                           then Proxy(users, keys, web.hash, web.issued[web.hash(token)].key, token)
                           else None
      ensures principal.Some? ==> IsSessionOf(principal.value.session, web.hash(token))
      ensures !web.enabled ==> Resolves(web.hash, token, principal)
      ensures web.enabled ==>
        if web.hash(token) in web.issued && now < web.issued[web.hash(token)].expires
        then Resolves(web.hash, web.issued[web.hash(token)].key, principal) else principal == None
    {
      if web.enabled {
        var digest := web.Credential(token, now);
        if digest.None? {
          return None;
        }
        ResolvesAs(web.hash, web.issued[web.hash(token)].key, token);
        assert UsableKey(web.issued, web.hash(token));
        SessionIsProxy(users, keys, web.hash, web.issued[web.hash(token)].key, token);
        return SessionPrincipal(users, keys, web.hash, digest.value, token);
      }
      ResolvesAs(web.hash, token, token);
      return CredentialPrincipal(users, keys, web.hash, token);
    }

    /** The principal is whom `key` stands for at this moment, and there is one if it stands for anybody. */
    ghost predicate Resolves(hash: Hash, key: string, principal: Option<Principal>)
      reads this
    {
      && (principal.Some? ==> StandsFor(users, keys, hash, key, principal.value))
      && (principal == None ==> forall p :: !StandsFor(users, keys, hash, key, p))
    }

    lemma ResolvesAs(hash: Hash, key: string, token: string)
      ensures Resolves(hash, key, CredentialPrincipal(users, keys, hash, key))
      ensures Resolves(hash, key, Proxy(users, keys, hash, key, token))
      ensures Proxy(users, keys, hash, key, token).Some? ==>
                IsSessionOf(Proxy(users, keys, hash, key, token).value.session, hash(token))
      ensures CredentialPrincipal(users, keys, hash, key).Some? ==>
                IsSessionOf(CredentialPrincipal(users, keys, hash, key).value.session, hash(key))
    {
      NobodyIff(users, keys, hash, key);
      PrefixIs(hash(token), Prefix(hash(token)));
      var found := CredentialPrincipal(users, keys, hash, key);
      if found.Some? {
        PrincipalIff(users, keys, hash, key, found.value);
        StandsForAny(users, keys, hash, key, found.value, Prefix(hash(token)));
      }
    }

    method Logout(token: string)
      requires Valid()
      modifies web
      ensures Valid() && web.issued == old(web.issued) - {web.hash(token)}
    {
      web.Logout(token);
      UsableKeysWithout(old(web.issued), web.hash(token));
    }
  }
}
