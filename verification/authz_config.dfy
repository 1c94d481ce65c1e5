/** Role resolution: which roles a member of some identity-provider groups
    holds, given the role -> groups configuration and the role -> implied
    roles inheritance configuration. */
module AuthzConfig {
  import opened Text
  import opened Lists

  /** Role name -> group ids that grant it (ids compared lower-cased). */
  type RoleGroups = map<string, set<string>>

  /** Role name -> roles it implies. Cycles are allowed. */
  type RoleInherits = map<string, set<string>>

  // ---------------------------------------------------------------------
  // Configured group ids

  /** The union of every role's group set: exactly the ids some role names. */
  method GetAllConfigGroupIds(roleGroups: RoleGroups) returns (ids: set<string>)
    ensures forall g :: g in ids <==> exists r :: r in roleGroups && g in roleGroups[r]
  {
    ids := {};
    var todo := roleGroups.Keys;
    while todo != {}
      invariant todo <= roleGroups.Keys
      invariant forall g :: g in ids <==> exists r :: r in roleGroups && r !in todo && g in roleGroups[r]
      decreases todo
    {
      var r :| r in todo;
      ids := ids + roleGroups[r];
      todo := todo - {r};
    }
  }

  // ---------------------------------------------------------------------
  // Specification of role resolution

  /** `role_inherits.get(r, set())` */
  function Implied(inherits: RoleInherits, r: string): set<string> {
    if r in inherits then inherits[r] else {}
  }

  /** The member holds one of the groups (config side lower-cased only). */
  predicate Matches(memberGroupIds: set<string>, groups: set<string>) {
    memberGroupIds * LowerSet(groups) != {}
  }

  /** Roles assigned directly by group membership. */
  ghost function DirectRoles(memberGroupIds: set<string>, roleGroups: RoleGroups): set<string> {
    set r | r in roleGroups && Matches(memberGroupIds, roleGroups[r])
  }

  /** Every role a config can mention: the configured roles and the implied ones. */
  ghost function Universe(roleGroups: RoleGroups, inherits: RoleInherits): set<string> {
    roleGroups.Keys + (set r, x | r in inherits && x in inherits[r] :: x)
  }

  /** `p` is a walk along the inheritance relation. */
  ghost predicate IsChain(inherits: RoleInherits, p: seq<string>) {
    |p| > 0 && forall i :: 0 <= i < |p| - 1 ==> p[i + 1] in Implied(inherits, p[i])
  }

  /** Role `x` is implied, in zero or more steps, by some role in `from`. */
  ghost predicate Reaches(inherits: RoleInherits, from: set<string>, x: string) {
    exists p :: IsChain(inherits, p) && p[0] in from && p[|p| - 1] == x
  }

  /** No role in `s` implies a role outside `s`. */
  ghost predicate Closed(inherits: RoleInherits, s: set<string>) {
    forall r :: r in s ==> Implied(inherits, r) <= s
  }

  /** Every role of `expanded` outside `pending` has had its implied roles added. */
  ghost predicate ExpandedOutside(inherits: RoleInherits, expanded: set<string>, pending: set<string>) {
    forall x :: x in expanded && x !in pending ==> Implied(inherits, x) <= expanded
  }

  /** The roles a member ends up with: those reachable from a direct match. */
  ghost function Resolved(memberGroupIds: set<string>, roleGroups: RoleGroups, inherits: RoleInherits): set<string> {
    set x | x in Universe(roleGroups, inherits) && Reaches(inherits, DirectRoles(memberGroupIds, roleGroups), x)
  }

  // ---------------------------------------------------------------------
  // Lemmas about the specification

  lemma ReachesStep(inherits: RoleInherits, from: set<string>, r: string, x: string)
    requires Reaches(inherits, from, r)
    requires x in Implied(inherits, r)
    ensures Reaches(inherits, from, x)
  {
    var p :| IsChain(inherits, p) && p[0] in from && p[|p| - 1] == r;
    var q := p + [x];
    assert IsChain(inherits, q);
  }

  lemma ReachesStart(inherits: RoleInherits, from: set<string>, x: string)
    requires x in from
    ensures Reaches(inherits, from, x)
  {
    assert IsChain(inherits, [x]);
  }

  /** A role reached from configured roles is itself configured or implied. */
  lemma ReachesWithinUniverse(memberGroupIds: set<string>, roleGroups: RoleGroups, inherits: RoleInherits, x: string)
    requires Reaches(inherits, DirectRoles(memberGroupIds, roleGroups), x)
    ensures x in Universe(roleGroups, inherits)
  {
    var p :| IsChain(inherits, p) && p[0] in DirectRoles(memberGroupIds, roleGroups) && p[|p| - 1] == x;
    if |p| > 1 {
      var r := p[|p| - 2];
      assert x in Implied(inherits, r);
      assert r in inherits;
    }
  }

  /** Membership in the resolved set is exactly reachability from a direct match. */
  lemma ResolvedIffReaches(memberGroupIds: set<string>, roleGroups: RoleGroups, inherits: RoleInherits, x: string)
    ensures x in Resolved(memberGroupIds, roleGroups, inherits) <==> Reaches(inherits, DirectRoles(memberGroupIds, roleGroups), x)
  {
    if Reaches(inherits, DirectRoles(memberGroupIds, roleGroups), x) {
      ReachesWithinUniverse(memberGroupIds, roleGroups, inherits, x);
    }
  }

  /** Every directly matched role is resolved. */
  lemma ResolvedContainsDirect(memberGroupIds: set<string>, roleGroups: RoleGroups, inherits: RoleInherits)
    ensures DirectRoles(memberGroupIds, roleGroups) <= Resolved(memberGroupIds, roleGroups, inherits)
  {
    forall x | x in DirectRoles(memberGroupIds, roleGroups)
      ensures x in Resolved(memberGroupIds, roleGroups, inherits)
    {
      ReachesStart(inherits, DirectRoles(memberGroupIds, roleGroups), x);
      ResolvedIffReaches(memberGroupIds, roleGroups, inherits, x);
    }
  }

  /** The resolved roles are closed under inheritance. */
  lemma ResolvedClosed(memberGroupIds: set<string>, roleGroups: RoleGroups, inherits: RoleInherits)
    ensures Closed(inherits, Resolved(memberGroupIds, roleGroups, inherits))
  {
    var direct := DirectRoles(memberGroupIds, roleGroups);
    var res := Resolved(memberGroupIds, roleGroups, inherits);
    forall r, x | r in res && x in Implied(inherits, r)
      ensures x in res
    {
      ResolvedIffReaches(memberGroupIds, roleGroups, inherits, r);
      ReachesStep(inherits, direct, r, x);
      ResolvedIffReaches(memberGroupIds, roleGroups, inherits, x);
    }
  }

  /** A walk that starts in a closed set stays in it. */
  lemma {:induction false} ChainStaysInClosed(inherits: RoleInherits, s: set<string>, p: seq<string>)
    requires Closed(inherits, s)
    requires IsChain(inherits, p) && p[0] in s
    ensures p[|p| - 1] in s
  {
    if |p| > 1 {
      var q := p[..|p| - 1];
      assert IsChain(inherits, q);
      ChainStaysInClosed(inherits, s, q);
      assert p[|p| - 1] in Implied(inherits, p[|p| - 2]);
    }
  }

  /** Popping `r` and adding its implied roles keeps every non-pending role expanded. */
  lemma ExpandedOutsideStep(inherits: RoleInherits, r: string,
                            expanded0: set<string>, pending0: set<string>,
                            expanded1: set<string>, pending1: set<string>)
    requires ExpandedOutside(inherits, expanded0, pending0 + {r})
    requires expanded0 <= expanded1 && Implied(inherits, r) <= expanded1
    requires pending1 == pending0 + (expanded1 - expanded0)
    ensures ExpandedOutside(inherits, expanded1, pending1)
  {
  }

  /** Minimality: any closed set holding the direct matches holds every resolved role. */
  lemma ResolvedLeast(memberGroupIds: set<string>, roleGroups: RoleGroups, inherits: RoleInherits, s: set<string>)
    requires DirectRoles(memberGroupIds, roleGroups) <= s
    requires Closed(inherits, s)
    ensures Resolved(memberGroupIds, roleGroups, inherits) <= s
  {
    forall x | x in Resolved(memberGroupIds, roleGroups, inherits)
      ensures x in s
    {
      ResolvedIffReaches(memberGroupIds, roleGroups, inherits, x);
      var p :| IsChain(inherits, p) && p[0] in DirectRoles(memberGroupIds, roleGroups) && p[|p| - 1] == x;
      ChainStaysInClosed(inherits, s, p);
    }
  }

  /** The three properties pin the result down: a set that holds the direct
      matches, is closed, and holds only reachable roles is the resolved set. */
  lemma ResolvedUnique(memberGroupIds: set<string>, roleGroups: RoleGroups, inherits: RoleInherits, s: set<string>)
    requires DirectRoles(memberGroupIds, roleGroups) <= s
    requires Closed(inherits, s)
    requires forall x :: x in s ==> Reaches(inherits, DirectRoles(memberGroupIds, roleGroups), x)
    ensures s == Resolved(memberGroupIds, roleGroups, inherits)
  {
    ResolvedLeast(memberGroupIds, roleGroups, inherits, s);
    forall x | x in s
      ensures x in Resolved(memberGroupIds, roleGroups, inherits)
    {
      ResolvedIffReaches(memberGroupIds, roleGroups, inherits, x);
    }
  }

  /** Without a direct match there are no roles at all. */
  lemma NoDirectMatchNoRoles(memberGroupIds: set<string>, roleGroups: RoleGroups, inherits: RoleInherits)
    requires DirectRoles(memberGroupIds, roleGroups) == {}
    ensures Resolved(memberGroupIds, roleGroups, inherits) == {}
  {
  }

  /** A role is directly assigned exactly when one of its configured ids,
      lower-cased, is among the member's ids. */
  lemma DirectRoleIff(memberGroupIds: set<string>, roleGroups: RoleGroups, r: string)
    ensures r in DirectRoles(memberGroupIds, roleGroups)
        <==> r in roleGroups && exists g :: g in roleGroups[r] && Lower(g) in memberGroupIds
  {
    if r in roleGroups && exists g :: g in roleGroups[r] && Lower(g) in memberGroupIds {
      var g :| g in roleGroups[r] && Lower(g) in memberGroupIds;
      assert Lower(g) in memberGroupIds * LowerSet(roleGroups[r]);
    }
  }

  /** A role configured with no group ids is never assigned directly. */
  lemma EmptyGroupsNeverDirect(memberGroupIds: set<string>, roleGroups: RoleGroups, r: string)
    requires r in roleGroups && roleGroups[r] == {}
    ensures r !in DirectRoles(memberGroupIds, roleGroups)
  {
  }

  /** Only the configuration side is lower-cased: a member id holding an
      upper-case letter can never be the id that matches. */
  lemma UpperCaseMemberIdNeverMatches(groups: set<string>, g: string)
    requires !IsLower(g)
    ensures g !in LowerSet(groups)
  {
  }

  /** Configured "ABC-123" matches member id "abc-123", but not member id "ABC-123". */
  lemma ConfigIdMatchesCaseInsensitively()
    ensures Matches({"abc-123"}, {"ABC-123"})
    ensures !Matches({"ABC-123"}, {"ABC-123"})
  {
    assert Lower("ABC-123") == "abc-123";
    assert LowerSet({"ABC-123"}) == {"abc-123"};
    assert "abc-123" in {"abc-123"} * LowerSet({"ABC-123"});
  }

  // ---------------------------------------------------------------------
  // The resolution algorithm

  /** First half of `compute_roles`: the roles whose lower-cased group set
      shares an id with the member's. */
  method MatchDirectRoles(memberGroupIds: set<string>, roleGroups: RoleGroups) returns (roles: set<string>)
    ensures forall r :: r in roles <==> r in roleGroups && Matches(memberGroupIds, roleGroups[r])
  {
    roles := {};
    var todo := roleGroups.Keys;
    while todo != {}
      invariant todo <= roleGroups.Keys
      invariant forall r :: r in roles <==> r in roleGroups && r !in todo && Matches(memberGroupIds, roleGroups[r])
      decreases todo
    {
      var role :| role in todo;
      var roleGroupSet := LowerSet(roleGroups[role]);
      if memberGroupIds * roleGroupSet != {} {
        roles := roles + {role};
      }
      todo := todo - {role};
    }
  }

  /** The inner `for implied in role_inherits.get(r, set())` loop: every role
      implied by `r` that is not yet expanded is added to `expanded` and pushed
      on top of the old stack; nothing else is added. */
  method PushImplied(r: string, inherits: RoleInherits, expanded: set<string>, stack: seq<string>,
                     ghost roles: set<string>, ghost universe: set<string>)
    returns (expanded': set<string>, stack': seq<string>)
    requires r in expanded && expanded <= universe
    requires forall x :: x in Implied(inherits, r) ==> x in universe
    requires Elems(stack) <= expanded && NoDuplicates(stack)
    requires forall x :: x in expanded ==> Reaches(inherits, roles, x)
    ensures expanded <= expanded' <= universe
    ensures Implied(inherits, r) <= expanded'
    ensures Elems(stack') == Elems(stack) + (expanded' - expanded)
    ensures NoDuplicates(stack')
    ensures forall x :: x in expanded' ==> Reaches(inherits, roles, x)
    ensures expanded' == expanded ==> stack' == stack
    ensures expanded' == expanded + Implied(inherits, r)
    ensures |stack| <= |stack'| && stack'[..|stack|] == stack
  {
    expanded', stack' := expanded, stack;
    var implied := Implied(inherits, r);
    while implied != {}
      invariant implied <= Implied(inherits, r)
      invariant Implied(inherits, r) - implied <= expanded'
      invariant expanded <= expanded' <= universe
      invariant Elems(stack') == Elems(stack) + (expanded' - expanded)
      invariant NoDuplicates(stack')
      invariant forall x :: x in expanded' ==> Reaches(inherits, roles, x)
      invariant expanded' == expanded ==> stack' == stack
      invariant expanded' == expanded + (Implied(inherits, r) - implied)
      invariant |stack| <= |stack'| && stack'[..|stack|] == stack
      decreases implied
    {
      var role :| role in implied;
      implied := implied - {role};
      if role !in expanded' {
        ReachesStep(inherits, roles, r, role);
        expanded' := expanded' + {role};
        stack' := stack' + [role];
      }
    }
  }

  /** Second half of `compute_roles`: worklist expansion of `roles` through
      the inheritance map, guarded by the set of roles already expanded.
      Terminates on every configuration, cyclic ones included: a role is
      pushed only when it first enters `expanded`. */
  method ExpandInherited(roles: set<string>, inherits: RoleInherits, ghost universe: set<string>)
    returns (expanded: set<string>)
    requires roles <= universe
    requires forall r, x :: r in universe && x in Implied(inherits, r) ==> x in universe
    ensures roles <= expanded
    ensures Closed(inherits, expanded)
    ensures forall x :: x in expanded ==> Reaches(inherits, roles, x)
  {
    expanded := roles;
    var stack := ToList(roles);
    forall x | x in expanded
      ensures Reaches(inherits, roles, x)
    {
      ReachesStart(inherits, roles, x);
    }
    while stack != []
      invariant roles <= expanded <= universe
      invariant Elems(stack) <= expanded
      invariant NoDuplicates(stack)
      invariant ExpandedOutside(inherits, expanded, Elems(stack))
      invariant forall x :: x in expanded ==> Reaches(inherits, roles, x)
      decreases universe - expanded, |stack|
    {
      Pop(stack);
      var r := stack[|stack| - 1];
      stack := stack[..|stack| - 1];
      ghost var expanded0, stack0 := expanded, stack;
      expanded, stack := PushImplied(r, inherits, expanded, stack, roles, universe);
      ExpandedOutsideStep(inherits, r, expanded0, Elems(stack0), expanded, Elems(stack));
    }
    assert Elems(stack) == {};
  }

  /** `compute_roles`: direct matching, inheritance expansion, then `list(expanded)`. */
  method ComputeRoles(memberGroupIds: set<string>, roleGroups: RoleGroups, inherits: RoleInherits)
    returns (result: seq<string>)
    ensures NoDuplicates(result)
    ensures Elems(result) == Resolved(memberGroupIds, roleGroups, inherits)
  {
    var roles := MatchDirectRoles(memberGroupIds, roleGroups);
    assert roles == DirectRoles(memberGroupIds, roleGroups);
    ghost var universe := Universe(roleGroups, inherits);
    forall r, x | r in universe && x in Implied(inherits, r)
      ensures x in universe
    {
      assert r in inherits;
    }
    var expanded := ExpandInherited(roles, inherits, universe);
    ResolvedUnique(memberGroupIds, roleGroups, inherits, expanded);
    result := ToList(expanded);
  }

  // ---------------------------------------------------------------------
  // Worked configurations

  /** Two roles implying each other: a match on "a" resolves to {"a", "b"}. */
  lemma CyclicInheritanceResolves()
    ensures Resolved({"g"}, map["a" := {"g"}], map["a" := {"b"}, "b" := {"a"}]) == {"a", "b"}
  {
    var member, rg, inh := {"g"}, map["a" := {"g"}], map["a" := {"b"}, "b" := {"a"}];
    assert DirectRoles(member, rg) == {"a"} by {
      assert Lower("g") == "g";
      assert LowerSet({"g"}) == {"g"};
      assert Matches(member, rg["a"]) by {
        assert "g" in member * LowerSet(rg["a"]);
      }
    }
    ResolvedWithin(member, rg, inh, {"a"}, {"a", "b"}) by {
      assert Implied(inh, "a") == {"b"} && Implied(inh, "b") == {"a"};
    }
  }

  /** A closed set built from the direct matches by following inheritance
      is the resolved set: the step shared by the worked configurations. */
  lemma ResolvedWithin(memberGroupIds: set<string>, roleGroups: RoleGroups, inherits: RoleInherits,
                       direct: set<string>, s: set<string>)
    requires DirectRoles(memberGroupIds, roleGroups) == direct
    requires direct <= s && Closed(inherits, s)
    requires forall x :: x in s ==> x in direct || exists r :: r in s && r in direct && x in Implied(inherits, r)
    ensures Resolved(memberGroupIds, roleGroups, inherits) == s
  {
    ResolvedLeast(memberGroupIds, roleGroups, inherits, s);
    ResolvedContainsDirect(memberGroupIds, roleGroups, inherits);
    ResolvedClosed(memberGroupIds, roleGroups, inherits);
  }

  /** admin implies support and user, support implies user: membership in
      admin's group alone resolves to all three roles. */
  lemma InheritanceChainResolves()
    ensures Resolved({"g1"},
                     map["admin" := {"G1"}, "support" := {"G2"}, "user" := {"G3"}],
                     map["admin" := {"support", "user"}, "support" := {"user"}, "user" := {}])
         == {"admin", "support", "user"}
  {
    var member := {"g1"};
    var rg := map["admin" := {"G1"}, "support" := {"G2"}, "user" := {"G3"}];
    var inh := map["admin" := {"support", "user"}, "support" := {"user"}, "user" := {}];
    assert DirectRoles(member, rg) == {"admin"} by {
      assert LowerSet({"G1"}) == {"g1"} by { assert Lower("G1") == "g1"; }
      assert LowerSet({"G2"}) == {"g2"} by { assert Lower("G2") == "g2"; }
      assert LowerSet({"G3"}) == {"g3"} by { assert Lower("G3") == "g3"; }
      assert Matches(member, rg["admin"]) by {
        assert "g1" in member * LowerSet(rg["admin"]);
      }
      assert !Matches(member, rg["support"]);
      assert !Matches(member, rg["user"]);
    }
    ResolvedWithin(member, rg, inh, {"admin"}, {"admin", "support", "user"}) by {
      assert Implied(inh, "admin") == {"support", "user"};
      assert Implied(inh, "support") == {"user"};
      assert Implied(inh, "user") == {};
    }
  }
}
