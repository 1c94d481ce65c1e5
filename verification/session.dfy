/** Session-based authorization: the roles stored in a session, the two
    staleness rules (role refresh interval and idle timeout), the activity
    stamp, and the route gates that combine them into a 401/403/allow
    decision. The clock and the two thresholds are parameters. */
module SessionAuth {
  import opened Wrappers
  import opened Text
  import opened Lists
  import opened AuthzConfig

  /** The identity kept under the session's `user` key; passed through, never interpreted. */
  datatype UserInfo = UserInfo(name: Option<string>, preferredUsername: Option<string>,
                               oid: Option<string>, tid: Option<string>)

  /** What the session holds under `roles`: nothing, a list of names, or some other value. */
  datatype RolesEntry = Missing | RoleList(items: seq<string>) | NotAList

  /** The session keys the core reads, as one value. */
  datatype Snapshot = Snapshot(user: Option<UserInfo>, roles: RolesEntry,
                               groupsFetchedAt: Option<int>, lastActivityAt: Option<int>)

  /** ROLE_REFRESH_INTERVAL_SECONDS and SESSION_MAX_IDLE_SECONDS; 0 (or less) disables a rule. */
  datatype Thresholds = Thresholds(refreshIntervalSeconds: int, maxIdleSeconds: int)

  /** A gate's decision: allow, HTTP 401 or HTTP 403, with the response detail. */
  datatype Outcome = Allow | Unauthorized(detail: string) | Forbidden(detail: string)

  /** A route gate, built once per route: all of a set, exactly one name, or any of a set. */
  datatype Gate = AllOf(required: set<string>) | OneRole(role: string) | AnyOf(required: set<string>)

  const NotAuthenticated := "Not authenticated"
  const SessionExpired := "Session expired or inactive; please log in again"
  const MissingRequiredRoles := "Forbidden (missing required roles)"
  const MissingRole := "Forbidden (missing role)"
  const NoAcceptableRole := "Forbidden (no acceptable role)"

  // ---------------------------------------------------------------------
  // Reading the session

  /** `get_roles`: the stored names when `roles` holds a list, else nothing. */
  function GetRoles(raw: RolesEntry): (r: set<string>)
    ensures forall x :: x in r <==> raw.RoleList? && x in raw.items
  {
    if raw.RoleList? then Elems(raw.items) else {}
  }

  /** `is_session_stale`: roles fetched too long ago, or idle too long.
      A missing fetch time reads as 0, a missing activity time as `now`. */
  function IsStale(s: Snapshot, limits: Thresholds, now: int): (stale: bool)
    ensures stale <==>
      (limits.refreshIntervalSeconds > 0
       && now - (if s.groupsFetchedAt.Some? then s.groupsFetchedAt.value else 0) >= limits.refreshIntervalSeconds)
      || (limits.maxIdleSeconds > 0
          && s.lastActivityAt.Some? && now - s.lastActivityAt.value >= limits.maxIdleSeconds)
    ensures limits.refreshIntervalSeconds <= 0 && limits.maxIdleSeconds <= 0 ==> !stale
  {
    if limits.refreshIntervalSeconds > 0 && now - s.groupsFetchedAt.GetOr(0) >= limits.refreshIntervalSeconds then
      true
    else if limits.maxIdleSeconds > 0 && now - s.lastActivityAt.GetOr(now) >= limits.maxIdleSeconds then
      true
    else
      false
  }

  /** Both rules disabled: never stale, whatever the timestamps. */
  lemma DisabledNeverStale(s: Snapshot, now: int)
    ensures !IsStale(s, Thresholds(0, 0), now)
  {
  }

  /** The refresh rule on its own: stale exactly when the roles are at least
      `interval` seconds old, a missing fetch time counting as time 0. */
  lemma RefreshRule(s: Snapshot, interval: int, now: int)
    requires interval > 0
    ensures IsStale(s, Thresholds(interval, 0), now)
        <==> now - (if s.groupsFetchedAt.Some? then s.groupsFetchedAt.value else 0) >= interval
  {
  }

  /** The idle rule on its own: stale exactly when the last activity is at
      least `maxIdle` seconds old; a session never stamped is not idle. */
  lemma IdleRule(s: Snapshot, maxIdle: int, now: int)
    requires maxIdle > 0
    ensures IsStale(s, Thresholds(0, maxIdle), now)
        <==> s.lastActivityAt.Some? && now - s.lastActivityAt.value >= maxIdle
  {
  }

  /** Either rule alone makes the session stale. */
  lemma StaleIffEitherRule(s: Snapshot, limits: Thresholds, now: int)
    ensures IsStale(s, limits, now)
        <==> (IsStale(s, Thresholds(limits.refreshIntervalSeconds, 0), now)
              || IsStale(s, Thresholds(0, limits.maxIdleSeconds), now))
  {
  }

  /** Idle limit 60: a 61 s gap is stale, 59 s is fresh, and exactly 60 s is stale. */
  lemma IdleBoundary(s: Snapshot)
    requires s.lastActivityAt == Some(1000)
    ensures IsStale(s, Thresholds(0, 60), 1061)
    ensures !IsStale(s, Thresholds(0, 60), 1059)
    ensures IsStale(s, Thresholds(0, 60), 1060)
  {
  }

  // ---------------------------------------------------------------------
  // Gates

  /** `{role.lower() for role in names if role}`: empty names are dropped. */
  function RequiredSet(names: seq<string>): (req: set<string>)
    ensures forall x :: x in req ==> IsLower(x) && x != ""
    ensures forall i :: 0 <= i < |names| && names[i] != "" ==> Lower(names[i]) in req
    ensures forall x :: x in req ==> exists i :: 0 <= i < |names| && names[i] != "" && Lower(names[i]) == x
  {
    set i | 0 <= i < |names| && names[i] != "" :: Lower(names[i])
  }

  /** The role test of each gate. Only the all-of gate lower-cases the stored roles. */
  function Permits(g: Gate, stored: set<string>): (ok: bool)
    ensures g.AllOf? ==> (ok <==> forall x :: x in g.required ==> exists y :: y in stored && Lower(y) == x)
    ensures g.OneRole? ==> (ok <==> g.role in stored)
    ensures g.AnyOf? ==> (ok <==> exists x :: x in g.required && x in stored)
  {
    match g
    case AllOf(required) =>
      AllMatchedIffNoneMissing(required, stored);
      required - LowerSet(stored) == {}
    case OneRole(role) => role in stored
    case AnyOf(required) =>
      SomeSharedIffMeet(required, stored);
      required * stored != {}
  }

  lemma AllMatchedIffNoneMissing(required: set<string>, stored: set<string>)
    ensures required - LowerSet(stored) == {}
        <==> forall x :: x in required ==> exists y :: y in stored && Lower(y) == x
  {
    if required - LowerSet(stored) == {} {
      forall x | x in required ensures exists y :: y in stored && Lower(y) == x {
        assert x !in required - LowerSet(stored);
      }
    } else {
      var x :| x in required - LowerSet(stored);
    }
  }

  lemma SomeSharedIffMeet(required: set<string>, stored: set<string>)
    ensures required * stored != {} <==> exists x :: x in required && x in stored
  {
    if exists x :: x in required && x in stored {
      var x :| x in required && x in stored;
      assert x in required * stored;
    }
  }

  function ForbiddenDetail(g: Gate): string {
    match g
    case AllOf(_) => MissingRequiredRoles
    case OneRole(_) => MissingRole
    case AnyOf(_) => NoAcceptableRole
  }

  /** Logged in and not stale: the request gets past both 401 checks and is stamped. */
  predicate Admitted(s: Snapshot, limits: Thresholds, now: int) {
    s.user.Some? && !IsStale(s, limits, now)
  }

  /** The decision every gate takes, in its fixed order: no user, stale,
      then the role test. A 401 comes exactly from a request that is not
      admitted; past both 401 checks only the gate's role test counts. */
  function Decide(s: Snapshot, g: Gate, limits: Thresholds, now: int): (o: Outcome)
    ensures s.user.None? ==> o == Unauthorized(NotAuthenticated)
    ensures s.user.Some? && IsStale(s, limits, now) ==> o == Unauthorized(SessionExpired)
    ensures o.Unauthorized? <==> !Admitted(s, limits, now)
    ensures Admitted(s, limits, now) ==> (o == Allow <==> Permits(g, GetRoles(s.roles)))
    ensures o.Forbidden? ==> o == Forbidden(ForbiddenDetail(g))
  {
    if s.user.None? then Unauthorized(NotAuthenticated)
    else if IsStale(s, limits, now) then Unauthorized(SessionExpired)
    else if Permits(g, GetRoles(s.roles)) then Allow
    else Forbidden(ForbiddenDetail(g))
  }

  /** The all-of test over the required set of `names`: every non-empty
      name matches some stored role, both sides lower-cased. */
  lemma AllOfTest(names: seq<string>, stored: set<string>)
    ensures Permits(AllOf(RequiredSet(names)), stored)
        <==> forall i :: 0 <= i < |names| && names[i] != "" ==> exists y :: y in stored && Lower(y) == Lower(names[i])
  {
    var req := RequiredSet(names);
    if forall i :: 0 <= i < |names| && names[i] != "" ==> exists y :: y in stored && Lower(y) == Lower(names[i]) {
      forall x | x in req ensures exists y :: y in stored && Lower(y) == x {
        var i :| 0 <= i < |names| && names[i] != "" && Lower(names[i]) == x;
      }
    }
  }

  /** The any-of test over the required set of `names`: some non-empty
      name, lower-cased, is stored as is. */
  lemma AnyOfTest(names: seq<string>, stored: set<string>)
    ensures Permits(AnyOf(RequiredSet(names)), stored)
        <==> exists i :: 0 <= i < |names| && names[i] != "" && Lower(names[i]) in stored
  {
    if exists i :: 0 <= i < |names| && names[i] != "" && Lower(names[i]) in stored {
      var i :| 0 <= i < |names| && names[i] != "" && Lower(names[i]) in stored;
      assert Lower(names[i]) in RequiredSet(names);
    }
  }

  lemma AllOfTestEverywhere(names: seq<string>)
    ensures forall stored ::
      (Permits(AllOf(RequiredSet(names)), stored)
       <==> forall i :: 0 <= i < |names| && names[i] != "" ==> exists y :: y in stored && Lower(y) == Lower(names[i]))
  {
    forall stored {
      AllOfTest(names, stored);
    }
  }

  lemma AnyOfTestEverywhere(names: seq<string>)
    ensures forall stored ::
      (Permits(AnyOf(RequiredSet(names)), stored)
       <==> exists i :: 0 <= i < |names| && names[i] != "" && Lower(names[i]) in stored)
  {
    forall stored {
      AnyOfTest(names, stored);
    }
  }

  /** `require_roles(*names)`: allowed exactly when the session is admitted
      and every non-empty name matches a stored role case-insensitively;
      an admitted refusal is 403 "missing required roles". */
  function RequireRoles(names: seq<string>): (g: Gate)
    ensures forall s, limits, now ::
      (Decide(s, g, limits, now) == Allow
       <==> Admitted(s, limits, now)
            && forall i :: 0 <= i < |names| && names[i] != "" ==>
                 exists y :: y in GetRoles(s.roles) && Lower(y) == Lower(names[i]))
    ensures forall s, limits, now ::
      (Admitted(s, limits, now) && Decide(s, g, limits, now) != Allow ==> Decide(s, g, limits, now) == Forbidden(MissingRequiredRoles))
  {
    AllOfTestEverywhere(names);
    AllOf(RequiredSet(names))
  }

  /** `require_role(name)`: allowed exactly when the session is admitted and
      the lower-cased name is stored as is (an empty name is kept); an
      admitted refusal is 403 "missing role". */
  function RequireRole(name: string): (g: Gate)
    ensures forall s, limits, now ::
      (Decide(s, g, limits, now) == Allow
       <==> Admitted(s, limits, now) && s.roles.RoleList? && Lower(name) in s.roles.items)
    ensures forall s, limits, now ::
      (Admitted(s, limits, now) && Decide(s, g, limits, now) != Allow ==> Decide(s, g, limits, now) == Forbidden(MissingRole))
  {
    OneRole(Lower(name))
  }

  /** `require_any_role(*names)`: allowed exactly when the session is admitted
      and some non-empty name, lower-cased, is stored as is; an admitted
      refusal is 403 "no acceptable role". */
  function RequireAnyRole(names: seq<string>): (g: Gate)
    ensures forall s, limits, now ::
      (Decide(s, g, limits, now) == Allow
       <==> Admitted(s, limits, now)
            && exists i :: 0 <= i < |names| && names[i] != "" && Lower(names[i]) in GetRoles(s.roles))
    ensures forall s, limits, now ::
      (Admitted(s, limits, now) && Decide(s, g, limits, now) != Allow ==> Decide(s, g, limits, now) == Forbidden(NoAcceptableRole))
  {
    AnyOfTestEverywhere(names);
    AnyOf(RequiredSet(names))
  }

  // ---------------------------------------------------------------------
  // Properties of the gates

  /** All names empty: an all-of gate admits every fresh logged-in session. */
  lemma AllOfBlankAllowsAdmitted(s: Snapshot, names: seq<string>, limits: Thresholds, now: int)
    requires forall i :: 0 <= i < |names| ==> names[i] == ""
    requires Admitted(s, limits, now)
    ensures Decide(s, RequireRoles(names), limits, now) == Allow
  {
    assert RequiredSet(names) == {};
  }

  /** All names empty: an any-of gate forbids every admitted session. */
  lemma AnyOfBlankForbids(s: Snapshot, names: seq<string>, limits: Thresholds, now: int)
    requires forall i :: 0 <= i < |names| ==> names[i] == ""
    requires Admitted(s, limits, now)
    ensures Decide(s, RequireAnyRole(names), limits, now) == Forbidden(NoAcceptableRole)
  {
    assert RequiredSet(names) == {};
  }

  /** The gates differ on stored names with upper-case letters: a stored
      "Admin" passes require_roles("Admin") but neither require_role("Admin")
      nor require_any_role("Admin"). */
  lemma StoredCaseOnlyFoldedByAllOf(s: Snapshot, limits: Thresholds, now: int)
    requires Admitted(s, limits, now) && s.roles == RoleList(["Admin"])
    ensures Decide(s, RequireRoles(["Admin"]), limits, now) == Allow
    ensures Decide(s, RequireRole("Admin"), limits, now) == Forbidden(MissingRole)
    ensures Decide(s, RequireAnyRole(["Admin"]), limits, now) == Forbidden(NoAcceptableRole)
  {
    assert GetRoles(s.roles) == {"Admin"};
    assert Lower("Admin")[0] == 'a';
  }

  /** Names that are non-empty and already lower-case are required as given. */
  lemma RequiredSetOfLowerNames(names: seq<string>)
    requires forall i :: 0 <= i < |names| ==> names[i] != "" && IsLower(names[i])
    ensures RequiredSet(names) == Elems(names)
  {
    forall x | x in Elems(names) ensures x in RequiredSet(names) {
      var i :| 0 <= i < |names| && names[i] == x;
      LowerKeepsLower(x);
    }
    forall x | x in RequiredSet(names) ensures x in Elems(names) {
      var i :| 0 <= i < |names| && names[i] != "" && Lower(names[i]) == x;
      LowerKeepsLower(names[i]);
    }
  }

  /** The gates built from two distinct non-empty lower-case names. */
  lemma TwoNameGates(admin: string, support: string)
    requires admin != "" && support != "" && IsLower(admin) && IsLower(support)
    ensures RequireRoles([admin, support]) == AllOf({admin, support})
    ensures RequireAnyRole([admin, support]) == AnyOf({admin, support})
  {
    RequiredSetOfLowerNames([admin, support]);
    assert Elems([admin, support]) == {admin, support};
  }

  /** With lower-case stored roles the all-of test is plain inclusion. */
  lemma AllOfOnLowerStored(required: set<string>, stored: set<string>)
    requires forall x :: x in stored ==> IsLower(x)
    ensures Permits(AllOf(required), stored) <==> required <= stored
  {
    LowerSetKeepsLower(stored);
    if !(required <= stored) {
      var x :| x in required && x !in stored;
      assert x in required - stored;
    }
  }

  /** For distinct role names such as "admin", "support" and "user" (non-empty,
      lower-case): the all-of gate on {admin, support} refuses stored roles
      {admin} and accepts {admin, support, user}. */
  lemma AllOfExamples(admin: string, support: string, user: string)
    requires admin != "" && support != "" && IsLower(admin) && IsLower(support) && IsLower(user)
    requires admin != support && support != user && admin != user
    ensures !Permits(RequireRoles([admin, support]), GetRoles(RoleList([admin])))
    ensures Permits(RequireRoles([admin, support]), GetRoles(RoleList([admin, support, user])))
  {
    TwoNameGates(admin, support);
    assert GetRoles(RoleList([admin])) == {admin};
    assert GetRoles(RoleList([admin, support, user])) == {admin, support, user};
    AllOfOnLowerStored({admin, support}, {admin});
    AllOfOnLowerStored({admin, support}, {admin, support, user});
  }

  /** For distinct non-empty lower-case names: the any-of gate on
      {admin, support} refuses stored roles {user} and accepts {support}. */
  lemma AnyOfExamples(admin: string, support: string, user: string)
    requires admin != "" && support != "" && IsLower(admin) && IsLower(support)
    requires admin != support && support != user && admin != user
    ensures !Permits(RequireAnyRole([admin, support]), GetRoles(RoleList([user])))
    ensures Permits(RequireAnyRole([admin, support]), GetRoles(RoleList([support])))
  {
    TwoNameGates(admin, support);
    assert GetRoles(RoleList([user])) == {user};
    assert GetRoles(RoleList([support])) == {support};
    assert support in {admin, support} * {support};
  }

  // ---------------------------------------------------------------------
  // The session object

  /** The per-principal session mapping, one field per key the core uses. */
  class Session {
    var user: Option<UserInfo>
    var roles: RolesEntry
    var groupsFetchedAt: Option<int>
    var lastActivityAt: Option<int>

    function View(): Snapshot
      reads this
    {
      Snapshot(user, roles, groupsFetchedAt, lastActivityAt)
    }

    /** A fresh, empty session: the empty mapping the session middleware
        starts from when a request carries no session cookie. */
    constructor ()
      ensures View() == Snapshot(None, Missing, None, None)
    {
      user, roles, groupsFetchedAt, lastActivityAt := None, Missing, None, None;
    }

    /** `touch_session_activity`: stamps `last_activity_at`; no other key changes. */
    method Touch(now: int)
      modifies this`lastActivityAt
      ensures View() == old(View()).(lastActivityAt := Some(now))
    {
      lastActivityAt := Some(now);
    }

    /** The `_dep` closure of every gate: 401 without a user, 401 when stale,
        otherwise stamp the activity and then allow or 403 on the role test.
        A 401 leaves the session untouched; anything else stamps it. */
    method Authorize(g: Gate, limits: Thresholds, now: int) returns (o: Outcome)
      modifies this`lastActivityAt
      ensures o == Decide(old(View()), g, limits, now)
      ensures View() == if Admitted(old(View()), limits, now)
                        then old(View()).(lastActivityAt := Some(now))
                        else old(View())
    {
      if user.None? {
        return Unauthorized(NotAuthenticated);
      }
      if IsStale(View(), limits, now) {
        return Unauthorized(SessionExpired);
      }
      Touch(now);
      var userRoles := GetRoles(roles);
      if !Permits(g, userRoles) {
        return Forbidden(ForbiddenDetail(g));
      }
      return Allow;
    }

    /** The application's after-response hook: stamp activity whenever a user is logged in. */
    method TrackActivity(now: int)
      modifies this`lastActivityAt
      ensures View() == if old(user).Some? then old(View()).(lastActivityAt := Some(now)) else old(View())
    {
      if user.Some? {
        Touch(now);
      }
    }

    /** The login callback's session writes: the user, the fetch time, and
        the roles resolved from the member's groups. The activity stamp is
        left as it was, so afterwards the refresh rule counts from `now`
        while the idle rule still reads the earlier stamp, if any. */
    method Login(info: UserInfo, memberGroupIds: set<string>,
                 roleGroups: RoleGroups, inherits: RoleInherits, now: int)
      modifies this`user, this`groupsFetchedAt, this`roles
      ensures user == Some(info) && groupsFetchedAt == Some(now)
      ensures roles.RoleList? && NoDuplicates(roles.items)
      ensures GetRoles(roles) == Resolved(memberGroupIds, roleGroups, inherits)
      ensures lastActivityAt == old(lastActivityAt)
      ensures forall limits, t ::
        (IsStale(View(), limits, t)
         <==> (limits.refreshIntervalSeconds > 0 && t - now >= limits.refreshIntervalSeconds)
              || IsStale(old(View()), Thresholds(0, limits.maxIdleSeconds), t))
    {
      user := Some(info);
      groupsFetchedAt := Some(now);
      var resolved := ComputeRoles(memberGroupIds, roleGroups, inherits);
      roles := RoleList(resolved);
    }

    /** The callback request as a whole: the login writes, then the
        after-response hook, which stamps the request because a user is now
        logged in. The new session is admitted until either enabled limit
        has passed since `now`, whatever the session held before. */
    method LoginCallback(info: UserInfo, memberGroupIds: set<string>,
                         roleGroups: RoleGroups, inherits: RoleInherits, now: int)
      modifies this
      ensures View() == Snapshot(Some(info), roles, Some(now), Some(now))
      ensures roles.RoleList? && NoDuplicates(roles.items)
      ensures GetRoles(roles) == Resolved(memberGroupIds, roleGroups, inherits)
      ensures forall limits, t ::
        (Admitted(View(), limits, t)
         <==> !(limits.refreshIntervalSeconds > 0 && t - now >= limits.refreshIntervalSeconds)
              && !(limits.maxIdleSeconds > 0 && t - now >= limits.maxIdleSeconds))
    {
      Login(info, memberGroupIds, roleGroups, inherits, now);
      TrackActivity(now);
    }
  }

  /** The after-response hook stamps every request that has a user, a 401
      for idleness included. Once that stamp lands, a session refused only
      by the idle rule is admitted again at the same instant. */
  lemma IdleStampReadmits(s: Snapshot, limits: Thresholds, now: int)
    requires s.user.Some?
    requires !IsStale(s, Thresholds(limits.refreshIntervalSeconds, 0), now)
    ensures Admitted(s.(lastActivityAt := Some(now)), limits, now)
  {
  }
}
