# msg-auth role resolution and session gates, in Dafny

This project models the decision logic of `msg_auth`. That is a small
FastAPI authorization layer. It maps a user's Microsoft Entra group
memberships to application roles, keeps them in a server-side session, and
guards routes with role gates.

Two parts carry all the logic:

- **Role resolution** (`authz_config.py`, module `AuthzConfig`).
  - `get_all_config_group_ids` collects every configured group id.
  - `compute_roles` assigns the roles whose configured group ids, once
    lower-cased, meet the member's group ids. It then expands them through
    the role-inheritance map with a worklist loop guarded by a visited set.
  - Both are methods with loops. `get_all_config_group_ids` is proved to
    return exactly the union of the configured group sets. `compute_roles`
    is proved against a ghost specification, `Resolved`: the roles
    reachable along inheritance from a directly matched role.
  - Lemmas show that `Resolved` contains every direct match, is closed
    under inheritance, and is the least such set. Those three properties
    determine it uniquely.
  - The worklist terminates on every configuration, cyclic ones
    included. Its measure is the set of not-yet-expanded roles of the
    configuration, then the stack length.
- **Session staleness and route gates** (`session.py`, module `SessionAuth`).
  - The session mapping is the class `Session`, with the four keys the core
    uses.
  - `get_roles` is a pure function of the value stored under `roles`.
  - `is_session_stale` is a pure function of a `Snapshot` of the four keys,
    the clock reading `now` and the two `Thresholds`.
  - `touch_session_activity` is `Session.Touch`.
  - The three gate factories (`require_roles`, `require_role`,
    `require_any_role`) build a `Gate` value. Their shared `_dep` sequence
    is `Session.Authorize`:
    1. no user → 401 "Not authenticated";
    2. stale → 401 "Session expired or inactive; please log in again";
    3. stamp the activity time;
    4. role test → allow, or 403 with the gate's own detail.
  - `Authorize` is specified by the pure function `Decide`. It changes
    `last_activity_at` exactly when the request gets past both 401 checks.
  - `Session.Login` mirrors the login callback's session writes
    (`router.py`). `Session.TrackActivity` mirrors the after-response hook
    of `main.py`. `Session.LoginCallback` is the callback request as a
    whole: the login writes, then the hook's stamp.

Three details of the code shape the model:

- Case folding of stored roles:
  - `require_roles` lower-cases the stored roles before comparing
    (`session.py:79`).
  - `require_role` and `require_any_role` compare the lower-cased required
    names with the stored roles as stored (`session.py:101`, `121-122`).
  - `StoredCaseOnlyFoldedByAllOf` exhibits the difference.
- Empty names:
  - `if role` drops only the empty string (`session.py:68`, `110`); a name
    made of spaces is kept.
  - `require_role` drops nothing, so `require_role("")` requires the role `""`.
- The limit of 20 distinct group ids appears only in comments
  (`main.py:7-8`, `29`). No code checks it, so the model has no such error.

## Model

| member | source | states |
|---|---|---|
| AuthzConfig.GetAllConfigGroupIds | src/msg_auth/authz_config.py:13-18 | the result holds exactly the group ids that some role's group set contains |
| AuthzConfig.MatchDirectRoles | src/msg_auth/authz_config.py:29-33 | a role is matched exactly when it is configured and its lower-cased group set shares an id with the member's ids |
| AuthzConfig.PushImplied | src/msg_auth/authz_config.py:40-43 | afterwards `expanded` is exactly the old set plus every role implied by `r`; the old stack is kept as a prefix and exactly the newly expanded roles were pushed on it, each once; nothing was pushed unless something was added |
| AuthzConfig.ExpandInherited | src/msg_auth/authz_config.py:36-43 | the worklist loop terminates on any configuration, cyclic included; the expanded set contains the start roles, is closed under inheritance, and holds only roles reachable from them |
| AuthzConfig.ComputeRoles | src/msg_auth/authz_config.py:21-45 | the returned list has no duplicates and its elements are exactly the resolved roles |
| AuthzConfig.ResolvedIffReaches | src/msg_auth/authz_config.py:36-43 | a role is resolved exactly when an inheritance chain leads to it from a directly matched role |
| AuthzConfig.ResolvedContainsDirect | src/msg_auth/authz_config.py:29-36 | every directly matched role is in the result |
| AuthzConfig.ResolvedClosed | src/msg_auth/authz_config.py:36-43 | for every resolved role r, every role in `role_inherits[r]` is resolved too |
| AuthzConfig.ResolvedLeast | src/msg_auth/authz_config.py:29-43 | minimality: any inheritance-closed set containing the direct matches contains every resolved role |
| AuthzConfig.ResolvedUnique | src/msg_auth/authz_config.py:29-45 | containing the direct matches, closure and reachability together determine the result uniquely, so equal inputs give equal role sets |
| AuthzConfig.NoDirectMatchNoRoles | src/msg_auth/authz_config.py:29-43 | with no direct match the result is empty, whatever the inheritance map says |
| AuthzConfig.DirectRoleIff | src/msg_auth/authz_config.py:30-33 | a role is matched directly iff it is configured and some configured id, lower-cased, is among the member's ids |
| AuthzConfig.EmptyGroupsNeverDirect | src/msg_auth/authz_config.py:31-32 | a role with an empty group set is never matched directly |
| AuthzConfig.UpperCaseMemberIdNeverMatches | src/msg_auth/authz_config.py:31-32 | only the config side is lower-cased, so a member id with an upper-case letter never matches anything |
| AuthzConfig.ConfigIdMatchesCaseInsensitively | src/msg_auth/authz_config.py:31-32 | config id "ABC-123" matches member id "abc-123" but not member id "ABC-123" |
| AuthzConfig.CyclicInheritanceResolves | src/msg_auth/authz_config.py:35-43 | with a -> b and b -> a, a match on a resolves to exactly {a, b} |
| AuthzConfig.InheritanceChainResolves | main.py:42-47 | with admin -> {support, user} and support -> {user}, a match on admin's group alone resolves to exactly {admin, support, user} |
| Text.Lower | src/msg_auth/session.py:90 | lower-casing keeps the length, folds every character and leaves no upper-case letter |
| Text.LowerSet | src/msg_auth/authz_config.py:31 | the lower-cased set holds the lower-cased form of every element and only lower-case strings |
| Text.LowerSetFromElements | src/msg_auth/authz_config.py:31 | every member of the lower-cased set is the lower-cased form of some element |
| Lists.ToList | src/msg_auth/authz_config.py:45 | `list(s)` holds every element of the set exactly once and nothing else |
| SessionAuth.GetRoles | src/msg_auth/session.py:29-32 | the stored names when `roles` is a list; no roles when it is missing or not a list |
| SessionAuth.DisabledNeverStale | src/msg_auth/session.py:41-55 | with both thresholds 0 no session is ever stale |
| SessionAuth.RefreshRule | src/msg_auth/session.py:45-48 | with a positive refresh interval alone, stale iff `now - groups_fetched_at >= interval`, a missing fetch time read as 0 |
| SessionAuth.IdleRule | src/msg_auth/session.py:50-53 | with a positive idle limit alone, stale iff an activity time is stored and `now - last_activity_at >= max_idle`; an unstamped session is never idle |
| SessionAuth.StaleIffEitherRule | src/msg_auth/session.py:45-55 | stale iff either rule on its own would make it stale |
| SessionAuth.IdleBoundary | src/msg_auth/session.py:50-53 | idle limit 60: a gap of 61 s is stale, 59 s fresh, exactly 60 s stale |
| SessionAuth.RequiredSet | src/msg_auth/session.py:68 | the required names are the lower-cased non-empty arguments: all lower-case, none empty, each non-empty argument present |
| SessionAuth.IsStale | src/msg_auth/session.py:35-55 | stale iff the refresh interval is on and the roles are at least that old (a missing fetch time read as 0), or the idle limit is on, an activity time is stored and it is at least that old; with both limits off never stale |
| SessionAuth.Permits | src/msg_auth/session.py:79-122 | all-of: every required name is the lower-cased form of some stored role; single role: the name is stored as is; any-of: some required name is stored as is |
| SessionAuth.Decide | src/msg_auth/session.py:70-126 | no user gives 401 "Not authenticated"; a stale logged-in session gives 401 with the expiry detail; a 401 comes exactly from a request that is not admitted; past both checks the outcome is allow iff the gate's role test passes, else 403 with the gate's detail |
| SessionAuth.AllOfTest | src/msg_auth/session.py:68-82 | the all-of test over `names` passes iff every non-empty name matches some stored role, both sides lower-cased |
| SessionAuth.AnyOfTest | src/msg_auth/session.py:110-122 | the any-of test over `names` passes iff some non-empty name, lower-cased, is stored as is |
| SessionAuth.RequireRoles | src/msg_auth/session.py:63-85 | the gate allows a request iff it is admitted and every non-empty name matches a stored role case-insensitively; an admitted refusal is 403 "missing required roles" |
| SessionAuth.RequireRole | src/msg_auth/session.py:88-105 | the gate allows a request iff it is admitted, `roles` is a list and the lower-cased name is in it as stored (an empty name kept); an admitted refusal is 403 "missing role" |
| SessionAuth.RequireAnyRole | src/msg_auth/session.py:108-126 | the gate allows a request iff it is admitted and some non-empty name, lower-cased, is stored as is; an admitted refusal is 403 "no acceptable role" |
| SessionAuth.AllOfBlankAllowsAdmitted | src/msg_auth/session.py:68 | with only empty names, the all-of gate allows every admitted session |
| SessionAuth.AllOfOnLowerStored | src/msg_auth/session.py:79-82 | when the stored roles are lower-case, the all-of test is plain set inclusion |
| SessionAuth.AnyOfBlankForbids | src/msg_auth/session.py:110-123 | with only empty names, the any-of gate forbids every admitted session with 403 "no acceptable role" |
| SessionAuth.StoredCaseOnlyFoldedByAllOf | src/msg_auth/session.py:79-123 | a stored "Admin" passes `require_roles("Admin")` but fails `require_role("Admin")` and `require_any_role("Admin")` |
| SessionAuth.AllOfExamples | src/msg_auth/session.py:79-82 | for distinct names, required {admin, support} refuses stored {admin} and accepts stored {admin, support, user} |
| SessionAuth.AnyOfExamples | src/msg_auth/session.py:121-123 | for distinct names, any of {admin, support} refuses stored {user} and accepts stored {support} |
| SessionAuth.Session.Touch | src/msg_auth/session.py:58-60 | sets `last_activity_at` to `now`; no other key changes |
| SessionAuth.Session.Authorize | src/msg_auth/session.py:63-126 | the outcome is `Decide` on the session as it was; `last_activity_at` becomes `now` exactly when the request passed both 401 checks, a 403 included; otherwise the session is unchanged |
| SessionAuth.Session.TrackActivity | main.py:53-59 | stamps the activity time exactly when a user is logged in |
| SessionAuth.Session.Login | src/msg_auth/router.py:37-48 | stores the user and `groups_fetched_at = now`, and the role list holds the resolved roles without duplicates; `last_activity_at` is unchanged, so the session is stale later iff the refresh interval has passed since `now` or the idle rule fires on the earlier stamp |
| SessionAuth.Session.LoginCallback | src/msg_auth/router.py:37-48 | the login writes followed by the after-response stamp of `main.py:57-58`: the session holds the user, the resolved roles as a list without duplicates, and both times set to `now`, and is admitted at `t` iff neither enabled limit has passed since `now`, whatever it held before |
| SessionAuth.IdleStampReadmits | main.py:53-59 | a logged-in session refused only by the idle rule is admitted again at the same instant once the hook's stamp lands |

## Left out

- Text.Lower: folds only the ASCII letters A-Z. Python's `str.lower` folds all of Unicode. Group ids are GUIDs and role names are configuration words, so ASCII covers the inputs the system uses.
- The OAuth exchange and the Microsoft Graph call (`microsoft.py`: `login_redirect`, `handle_callback`, `_check_member_groups`) are calls into a third-party library and the network. The member's group ids are an input of `ComputeRoles` and `Login`. The provider lower-cases them (`microsoft.py:74`); the model does not require it.
- The router's `/login`, `/me` and `/logout` endpoints, the redirects, and the DEBUG-only `group_ids` session write are HTTP wiring.
- `protocol.py` (a typing protocol) and `__init__.py` (re-exports) contain no logic.
- Environment reads and the clock are parameters:
  - `ROLE_REFRESH_INTERVAL_SECONDS` and `SESSION_MAX_IDLE_SECONDS` become `Thresholds`.
  - A non-numeric value, which makes `int()` raise, is not modelled.
  - `time.time()` becomes `now`.
  - The source reads the clock separately in `is_session_stale` and in `touch_session_activity`. The model uses one reading per request.
- `async`/`await` and `HTTPException` are not modelled. A gate's result is an `Outcome` value of allow, 401 or 403, with the same detail strings.
- Session values are assumed to have the types the core writes:
  - integer timestamps;
  - a list of strings under `roles`.
  - A non-string role, or a `None` group id from an unset environment variable, would raise in Python. The model does not include these cases.
- Session.TrackActivity: stamps every request that has a user, a 401 for idleness included (`main.py:57-58`), and `IdleStampReadmits` shows that the stamp re-admits such a session. Whether that stamp persists depends on the order in which the session middleware and the hook run; the model applies it. The hook is registered after the session middleware (`main.py:50`, `53`), so it may run outside it and its stamp may never reach the session cookie: `Session.Login` alone models that case, while `Session.LoginCallback` and `IdleStampReadmits` assume the stamp persists.
- Session.Touch and Session.Authorize: "no other key changes" covers only the four keys the core uses. Other keys of the session mapping are not modelled.
- ComputeRoles and GetAllConfigGroupIds: the model proves the results for every iteration order. The dictionaries iterate in insertion order, which the caller's configuration fixes, but the order of the sets, and so of `list(expanded)`, is unspecified. For the returned list the model promises only its elements and that none repeats.
- The bound of 20 distinct group ids exists only in comments and is not modelled.
