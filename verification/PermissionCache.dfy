/** Permission checks that first consult the snapshot inside the caller's token: what they allow,
    over every history of grants, revocations, deactivations and token issues. */
module PermissionCache {
  import opened Wrappers

  datatype User = User(isActive: bool, roles: set<nat>)

  datatype TokenType = Access | Refresh

  /** The payload of a signed token; `permissions` is absent in tokens of older releases. */
  datatype Token = Token(subject: Option<nat>, kind: TokenType, permissions: Option<set<string>>, expires: nat)

  /** The database, the clock, and every token signed so far. */
  datatype State = State(users: map<nat, User>, rolePermissions: map<nat, set<string>>, now: nat, issued: set<Token>)

  datatype Lifetimes = Lifetimes(access: nat, refresh: nat)

  // ----- The check

  /** `get_user_permissions`: the union over the user's roles. */
  function Permissions(s: State, user: nat): set<string> {
    if user !in s.users then {}
    else set r, p | r in s.users[user].roles && r in s.rolePermissions && p in s.rolePermissions[r] :: p
  }

  /** Some role of the user has the permission. */
  ghost predicate Holds(s: State, user: nat, permission: string) {
    exists r :: HasRole(s, user, r) && RoleGrants(s, r, permission)
  }

  predicate HasRole(s: State, user: nat, role: nat) {
    user in s.users && role in s.users[user].roles
  }

  predicate RoleGrants(s: State, role: nat, permission: string) {
    role in s.rolePermissions && permission in s.rolePermissions[role]
  }

  lemma PermissionsHeld(s: State, user: nat)
    ensures forall p :: p in Permissions(s, user) <==> Holds(s, user, p)
  {
    forall p ensures p in Permissions(s, user) <==> Holds(s, user, p) {
      if Holds(s, user, p) {
        var r :| HasRole(s, user, r) && RoleGrants(s, r, p);
      } else if p in Permissions(s, user) {
        var r :| r in s.users[user].roles && r in s.rolePermissions && p in s.rolePermissions[r];
        assert HasRole(s, user, r);
      }
    }
  }

  datatype CheckError = Unauthorized | Forbidden

  /** `decode_token`: a signature of ours, and not expired. */
  predicate Decodes(s: State, t: Token) {
    t in s.issued && s.now <= t.expires
  }

  datatype CurrentUser = CurrentUser(id: nat, cachedPermissions: set<string>)

  /** `get_current_user` */
  function GetCurrentUser(s: State, t: Token): Result<CurrentUser, CheckError> {
    if !Decodes(s, t) || t.subject.None? then Failure(Unauthorized)
    else if t.subject.value !in s.users || !s.users[t.subject.value].isActive then Failure(Unauthorized)
    else Success(CurrentUser(t.subject.value, t.permissions.GetOr({})))
  }

  /** One of our tokens, not expired, of a user who exists and is active. */
  predicate SpeaksForUser(s: State, t: Token) {
    t in s.issued && s.now <= t.expires && t.subject.Some? && t.subject.value in s.users
        && s.users[t.subject.value].isActive
  }

  predicate Allowed(s: State, t: Token, permission: string) {
    var user := GetCurrentUser(s, t);
    user.Success? && (permission in user.value.cachedPermissions || permission in Permissions(s, user.value.id))
  }

  /** The dependency built by `require_permission`. */
  method RequirePermission(s: State, t: Token, permission: string) returns (r: Result<nat, CheckError>)
    ensures r.Success? <==> Allowed(s, t, permission)
    ensures r.Success? ==> t.subject == Some(r.value)
    ensures r == Failure(Unauthorized) <==> !SpeaksForUser(s, t)
  {
    var user := GetCurrentUser(s, t);
    if user.Failure? {
      return Failure(Unauthorized);
    }
    var cached := user.value.cachedPermissions;
    if permission !in cached {
      cached := Permissions(s, user.value.id);
    }
    if permission !in cached {
      return Failure(Forbidden);
    }
    r := Success(user.value.id);
  }

  /** The dependency built by `require_scope_permission`; `inScope` is the scope service. */
  method RequireScopePermission(s: State, t: Token, permission: string, resource: Option<nat>,
                                inScope: (nat, nat) -> bool)
    returns (r: Result<bool, CheckError>)
    ensures r == Success(true) <==>
      Allowed(s, t, permission) && (resource.None? || inScope(t.subject.value, resource.value))
    ensures r != Success(false)
    ensures r == Failure(Unauthorized) <==> !SpeaksForUser(s, t)
  {
    var user := RequirePermission(s, t, permission);
    if user.Failure? {
      return Failure(user.error);
    }
    if resource.Some? && !inScope(user.value, resource.value) {
      return Failure(Forbidden);
    }
    r := Success(true);
  }

  // ----- Histories

  datatype Event =
    | Tick(seconds: nat)
    | CreateUser(user: nat)
    | SetActive(user: nat, active: bool)
    | AssignRole(user: nat, role: nat)
    | UnassignRole(user: nat, role: nat)
    | Grant(role: nat, permission: string)
    | Revoke(role: nat, permission: string)
    | DeleteUser(user: nat)
    | Login(user: nat)
    | RefreshTokens(token: Token)

  function TokenFor(s: State, user: nat, kind: TokenType, lifetime: nat): Token {
    Token(Some(user), kind, Some(Permissions(s, user)), s.now + lifetime)
  }

  /** Login and refresh sign an access and a refresh token over the same data. */
  function Issue(s: State, life: Lifetimes, user: nat): State {
    s.(issued := s.issued + {TokenFor(s, user, Access, life.access), TokenFor(s, user, Refresh, life.refresh)})
  }

  predicate ActiveUser(s: State, user: nat) {
    user in s.users && s.users[user].isActive
  }

  /** One event; a refused one changes nothing. */
  function Step(s: State, life: Lifetimes, e: Event): State {
    match e
    case Tick(seconds) => s.(now := s.now + seconds)
    case CreateUser(u) => if u in s.users then s else s.(users := s.users[u := User(true, {})])
    case SetActive(u, active) => if u !in s.users then s else s.(users := s.users[u := s.users[u].(isActive := active)])
    case AssignRole(u, r) => if u !in s.users then s
        else s.(users := s.users[u := s.users[u].(roles := s.users[u].roles + {r})])
    case UnassignRole(u, r) => if u !in s.users then s
        else s.(users := s.users[u := s.users[u].(roles := s.users[u].roles - {r})])
    case Grant(r, p) => s.(rolePermissions := s.rolePermissions[r := RolePermissions(s, r) + {p}])
    case Revoke(r, p) => s.(rolePermissions := s.rolePermissions[r := RolePermissions(s, r) - {p}])
    case DeleteUser(u) => s.(users := s.users - {u})
    case Login(u) => if ActiveUser(s, u) then Issue(s, life, u) else s
    case RefreshTokens(t) =>
      if Decodes(s, t) && t.kind == Refresh && t.subject.Some? && ActiveUser(s, t.subject.value)
      then Issue(s, life, t.subject.value) else s
  }

  function RolePermissions(s: State, role: nat): set<string> {
    if role in s.rolePermissions then s.rolePermissions[role] else {}
  }

  function After(s: State, life: Lifetimes, history: seq<Event>): State {
    if history == [] then s else Step(After(s, life, history[..|history| - 1]), life, history[|history| - 1])
  }

  /** The state when the first `k` events of the history had happened. */
  function At(s: State, life: Lifetimes, history: seq<Event>, k: nat): State
    requires k <= |history|
  {
    After(s, life, history[..k])
  }

  /** The token is what signing for its subject now gives: its kind's lifetime, and a snapshot of
      exactly the permissions its subject holds. */
  ghost predicate SignedOver(s: State, life: Lifetimes, t: Token) {
    && t.subject.Some? && ActiveUser(s, t.subject.value)
    && t.expires == s.now + (if t.kind == Access then life.access else life.refresh)
    && t.permissions.Some? && forall p :: p in t.permissions.value <==> Holds(s, t.subject.value, p)
  }

  /** The event makes the server sign this token: a login, or an unexpired refresh token of ours. */
  ghost predicate Signs(s: State, life: Lifetimes, e: Event, t: Token) {
    && SignedOver(s, life, t)
    && (|| e == Login(t.subject.value)
        || (e.RefreshTokens? && e.token in s.issued && s.now <= e.token.expires && e.token.kind == Refresh
            && e.token.subject == t.subject))
  }

  /** What one event changes, fact by fact. */
  lemma {:induction false} StepExactly(s: State, life: Lifetimes, e: Event)
    ensures var t := Step(s, life, e);
      && (forall u :: u in t.users <==> e == CreateUser(u) || (u in s.users && e != DeleteUser(u)))
      && (forall u :: ActiveUser(t, u) <==>
            || (u !in s.users && e == CreateUser(u)) || (u in s.users && e == SetActive(u, true))
            || (ActiveUser(s, u) && e != SetActive(u, false) && e != DeleteUser(u)))
      && (forall u, r :: HasRole(t, u, r) <==>
            || (u in s.users && e == AssignRole(u, r))
            || (HasRole(s, u, r) && e != UnassignRole(u, r) && e != DeleteUser(u)))
      && (forall r, p :: RoleGrants(t, r, p) <==> e == Grant(r, p) || (RoleGrants(s, r, p) && e != Revoke(r, p)))
      && t.now == s.now + (if e.Tick? then e.seconds else 0)
      && (forall k :: k in t.issued <==> k in s.issued || Signs(s, life, e, k))
  {
    hide Permissions, SignedOver, Holds;
    forall k ensures k in Step(s, life, e).issued <==> k in s.issued || Signs(s, life, e, k) {
      SignedExactly(s, life, k);
    }
    StepUsers(s, life, e);
  }

  lemma SignedExactly(s: State, life: Lifetimes, t: Token)
    ensures SignedOver(s, life, t) <==>
      && t.subject.Some? && ActiveUser(s, t.subject.value)
      && t == TokenFor(s, t.subject.value, t.kind, if t.kind == Access then life.access else life.refresh)
  {
    hide Permissions, Holds;
    if t.subject.Some? {
      PermissionsHeld(s, t.subject.value);
      assert SignedOver(s, life, t) ==> t.permissions.value == Permissions(s, t.subject.value);
    }
  }

  lemma StepUsers(s: State, life: Lifetimes, e: Event)
    ensures var t := Step(s, life, e);
      && (forall u :: u in t.users <==> e == CreateUser(u) || (u in s.users && e != DeleteUser(u)))
      && (forall u :: ActiveUser(t, u) <==>
            || (u !in s.users && e == CreateUser(u)) || (u in s.users && e == SetActive(u, true))
            || (ActiveUser(s, u) && e != SetActive(u, false) && e != DeleteUser(u)))
      && (forall u, r :: HasRole(t, u, r) <==>
            || (u in s.users && e == AssignRole(u, r))
            || (HasRole(s, u, r) && e != UnassignRole(u, r) && e != DeleteUser(u)))
      && (forall r, p :: RoleGrants(t, r, p) <==> e == Grant(r, p) || (RoleGrants(s, r, p) && e != Revoke(r, p)))
      && t.now == s.now + (if e.Tick? then e.seconds else 0)
  {
    hide Permissions;
  }

  /** The token was signed for its subject after `k` events, out of that moment's permissions. */
  ghost predicate SignedAt(s: State, life: Lifetimes, history: seq<Event>, t: Token, k: nat)
    requires k <= |history|
  {
    var moment := At(s, life, history, k);
    SignedOver(moment, life, t)
  }

  lemma {:induction false} StepIssues(s: State, life: Lifetimes, e: Event, t: Token)
    requires t in Step(s, life, e).issued
    ensures t in s.issued || SignedOver(s, life, t)
  {
    hide SignedOver, Permissions;
    SignedExactly(s, life, t);
  }

  /** Every token in circulation was there before the history or signed at some moment of it. */
  lemma {:induction false} IssuedWasSigned(s: State, life: Lifetimes, history: seq<Event>, t: Token)
    requires t in After(s, life, history).issued
    ensures t in s.issued || exists k: nat :: k < |history| && SignedAt(s, life, history, t, k)
  {
    if history != [] {
      var n := |history| - 1;
      var before := After(s, life, history[..n]);
      StepIssues(before, life, history[n], t);
      if t !in before.issued {
        assert SignedAt(s, life, history, t, n);
      } else {
        IssuedWasSigned(s, life, history[..n], t);
        if t !in s.issued {
          var k: nat :| k < n && SignedAt(s, life, history[..n], t, k);
          assert history[..n][..k] == history[..k];
          assert SignedAt(s, life, history, t, k);
        }
      }
    }
  }

  /** The user held the permission after `k` events of the history. */
  ghost predicate HeldAt(s: State, life: Lifetimes, history: seq<Event>, user: nat, permission: string, k: nat)
    requires k <= |history|
  {
    Holds(At(s, life, history, k), user, permission)
  }

  /** The token was in circulation before the history, with a snapshot that has the permission. */
  ghost predicate OlderSnapshot(s: State, t: Token, permission: string) {
    t in s.issued && t.permissions.Some? && permission in t.permissions.value
  }

  /** After any history, from any tokens already in circulation, a check passes exactly when the
      token is ours and unexpired, its user is active now, and the user holds the permission now,
      or held it when the token was signed, or the token came with it from before the history. */
  lemma {:induction false} AllowedExactly(s: State, life: Lifetimes, history: seq<Event>, t: Token, permission: string)
    ensures var now := After(s, life, history);
      Allowed(now, t, permission) <==>
        && SpeaksForUser(now, t)
        && (|| Holds(now, t.subject.value, permission)
            || (exists k: nat :: k < |history| && SignedAt(s, life, history, t, k)
                  && HeldAt(s, life, history, t.subject.value, permission, k))
            || OlderSnapshot(s, t, permission))
  {
    hide After, Holds, Permissions, SignedAt, ActiveUser;
    var now := After(s, life, history);
    if SpeaksForUser(now, t) {
      IssuedWasSigned(s, life, history, t);
      PermissionsHeld(now, t.subject.value);
      forall k: nat | k < |history| && SignedAt(s, life, history, t, k)
        ensures t.permissions.Some?
          && (permission in t.permissions.value <==> HeldAt(s, life, history, t.subject.value, permission, k))
      {
        SnapshotHeld(s, life, history, t, k);
      }
    }
  }

  lemma SnapshotHeld(s: State, life: Lifetimes, history: seq<Event>, t: Token, k: nat)
    requires k < |history| && SignedAt(s, life, history, t, k)
    ensures t.permissions.Some? && t.subject.Some?
    ensures forall p :: p in t.permissions.value <==> HeldAt(s, life, history, t.subject.value, p, k)
  {
  }

  /** A token of an older release carries no snapshot: every check falls back to the database. */
  lemma {:induction false} OldTokenFallsBack(s: State, life: Lifetimes, history: seq<Event>, t: Token,
                                             permission: string)
    requires t.permissions.None?
    ensures var now := After(s, life, history);
      Allowed(now, t, permission) <==>
        && t in s.issued && SpeaksForUser(now, t) && Holds(now, t.subject.value, permission)
  {
    hide Permissions, Holds;
    var now := After(s, life, history);
    if t.subject.Some? {
      PermissionsHeld(now, t.subject.value);
    }
    if t in now.issued {
      IssuedWasSigned(s, life, history, t);
    }
    StaysIssued(s, life, history, t);
  }

  lemma {:induction false} StaysIssued(s: State, life: Lifetimes, history: seq<Event>, t: Token)
    ensures t in s.issued ==> t in After(s, life, history).issued
  {
    if history != [] {
      StaysIssued(s, life, history[..|history| - 1], t);
    }
  }

  /** Staleness is bounded: once the user has not held the permission for as long as the longest
      token lifetime, the only tokens of that user to pass the check are unexpired ones from
      before the history whose snapshot has the permission. */
  lemma {:induction false} RevocationTakesEffect(s: State, life: Lifetimes, history: seq<Event>, t: Token,
                                                 permission: string)
    requires t.subject.Some?
    requires var bound := if life.access < life.refresh then life.refresh else life.access;
      forall k: nat :: k <= |history| && After(s, life, history).now <= At(s, life, history, k).now + bound ==>
        !HeldAt(s, life, history, t.subject.value, permission, k)
    ensures Allowed(After(s, life, history), t, permission) ==>
      OlderSnapshot(s, t, permission) && After(s, life, history).now <= t.expires
  {
    AllowedExactly(s, life, history, t, permission);
    assert history[..|history|] == history;
    assert !HeldAt(s, life, history, t.subject.value, permission, |history|);
  }

  /** Log in while holding the permission, lose it, and wait for a whole lifetime. */
  function StaleHistory(user: nat, role: nat, permission: string, wait: nat): seq<Event> {
    [CreateUser(user), AssignRole(user, role), Grant(role, permission), Login(user), Revoke(role, permission),
     Tick(wait)]
  }

  lemma {:induction false} AfterStep(s: State, life: Lifetimes, history: seq<Event>, k: nat)
    requires k < |history|
    ensures At(s, life, history, k + 1) == Step(At(s, life, history, k), life, history[k])
  {
    assert history[..k + 1][..k] == history[..k];
  }

  /** The moment of the login. */
  function Holding(user: nat, role: nat, permission: string): State {
    State(map[user := User(true, {role})], map[role := {permission}], 0, {})
  }

  lemma {:induction false} StaleRun(life: Lifetimes, user: nat, role: nat, permission: string, wait: nat)
    ensures After(State(map[], map[], 0, {}), life, StaleHistory(user, role, permission, wait)) ==
      Issue(Holding(user, role, permission), life, user).(rolePermissions := map[role := {}], now := wait)
  {
    hide After, Issue;
    var s0 := State(map[], map[], 0, {});
    var history := StaleHistory(user, role, permission, wait);
    assert history[..6] == history && history[..0] == [];
    assert At(s0, life, history, 0) == s0 by { AfterNone(s0, life); }
    AfterStep(s0, life, history, 0);
    assert At(s0, life, history, 1) == State(map[user := User(true, {})], map[], 0, {});
    AfterStep(s0, life, history, 1);
    var noRole: set<nat>, noPermission: set<string> := {}, {};
    assert noRole + {role} == {role} && noPermission + {permission} == {permission};
    assert At(s0, life, history, 2).users == map[user := User(true, {role})];
    AfterStep(s0, life, history, 2);
    assert At(s0, life, history, 3) == Holding(user, role, permission);
    AfterStep(s0, life, history, 3);
    IssueOnlySigns(Holding(user, role, permission), life, user);
    AfterStep(s0, life, history, 4);
    AfterStep(s0, life, history, 5);
  }

  lemma AfterNone(s: State, life: Lifetimes)
    ensures After(s, life, []) == s
  {
  }

  lemma IssueOnlySigns(s: State, life: Lifetimes, user: nat)
    ensures Issue(s, life, user) == s.(issued := Issue(s, life, user).issued)
  {
  }

  /** A token of either kind still passes with the revoked permission when its whole lifetime has
      gone by: a check reads the snapshot and never the kind, so a refresh token passes as well,
      and the bound above, the longer of the two lifetimes, is attained. */
  lemma {:induction false} StaleSnapshotPasses(life: Lifetimes, user: nat, role: nat, permission: string,
                                               kind: TokenType)
    ensures var s := State(map[], map[], 0, {});
      var lifetime := if kind == Access then life.access else life.refresh;
      var history := StaleHistory(user, role, permission, lifetime);
      && !Holds(After(s, life, history), user, permission)
      && After(s, life, history).now == lifetime
      && exists t: Token :: t.kind == kind && t.subject == Some(user) && Allowed(After(s, life, history), t, permission)
  {
    hide After, StaleHistory;
    var lifetime := if kind == Access then life.access else life.refresh;
    StaleRun(life, user, role, permission, lifetime);
    var held := Holding(user, role, permission);
    assert permission in held.rolePermissions[role] && role in held.users[user].roles;
    assert permission in Permissions(held, user);
    var t := TokenFor(held, user, kind, lifetime);
    assert Allowed(After(State(map[], map[], 0, {}), life, StaleHistory(user, role, permission, lifetime)), t,
                   permission);
  }
}
