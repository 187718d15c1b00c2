/** The compiled snapshot decides as the records declare, whatever order they are scanned in. */
module IamLaws {
  import opened Iam

  // ----- What the records declare -------------------------------------------------------------------

  ghost predicate AdminDeclared(rs: seq<Record>, p: Principal) {
    exists i :: 0 <= i < |rs| && rs[i].UserRecord? && rs[i].principal == p && rs[i].admin
  }

  predicate Disables(r: Record, p: Principal) {
    (r.UserRecord? || r.AccountRecord?) && r.principal == p && r.disabled
  }

  ghost predicate DisabledDeclared(rs: seq<Record>, p: Principal) {
    exists i :: 0 <= i < |rs| && Disables(rs[i], p)
  }

  predicate InGroup(r: Record, p: Principal, group: Principal) {
    r.GroupRecord? && r.principal == group && p in r.members
  }

  ghost predicate MemberDeclared(rs: seq<Record>, p: Principal, group: Principal) {
    exists i :: 0 <= i < |rs| && InGroup(rs[i], p, group)
  }

  /** A predefined role is what the server compiled in, whatever a record of that name says. */
  ghost predicate RoleDeclared(predefined: RoleTable, rs: seq<Record>, role: string, permission: string) {
    if role in predefined then permission in predefined[role]
    else exists i :: 0 <= i < |rs| && rs[i].RoleRecord? && rs[i].name == role && permission in rs[i].permissions
  }

  ghost predicate BindingDeclared(rs: seq<Record>, scope: string, b: Binding) {
    exists i :: 0 <= i < |rs| && rs[i].PolicyRecord? && rs[i].scope == scope && b in rs[i].bindings
  }

  ghost predicate BindsDeclared(predefined: RoleTable, rs: seq<Record>, p: Principal, permission: string, b: Binding) {
    && (exists i :: 0 <= i < |b.members| && (b.members[i] == p || MemberDeclared(rs, p, b.members[i])))
    && RoleDeclared(predefined, rs, b.role, permission)
  }

  ghost predicate ScopeDeclared(predefined: RoleTable, rs: seq<Record>, p: Principal, permission: string,
                                scope: string) {
    exists b :: BindingDeclared(rs, scope, b) && BindsDeclared(predefined, rs, p, permission, b)
  }

  /** Not disabled, and an administrator or bound, directly or through a group, at a scope that
      covers the request, to a role with the permission. */
  ghost predicate Declared(predefined: RoleTable, rs: seq<Record>, p: Principal, permission: string,
                           scopes: seq<string>) {
    && p != "" && !DisabledDeclared(rs, p)
    && (|| AdminDeclared(rs, p)
        || exists i :: 0 <= i < |scopes| && ScopeDeclared(predefined, rs, p, permission, scopes[i]))
  }

  // ----- Well-formed records -------------------------------------------------------------------------------

  predicate IsIdentity(r: Record) {
    r.UserRecord? || r.AccountRecord?
  }

  /** Two records for one identity, one role or one scope. */
  predicate Clash(a: Record, b: Record) {
    || (IsIdentity(a) && IsIdentity(b) && a.principal == b.principal)
    || (a.RoleRecord? && b.RoleRecord? && a.name == b.name)
    || (a.PolicyRecord? && b.PolicyRecord? && a.scope == b.scope)
  }

  ghost predicate Unique(rs: seq<Record>) {
    forall i, j :: 0 <= i < j < |rs| ==> !Clash(rs[i], rs[j])
  }

  lemma UniqueInit(rs: seq<Record>)
    requires Unique(rs) && rs != []
    ensures var init := rs[..|rs| - 1];
            Unique(init) && forall i :: 0 <= i < |init| ==> !Clash(init[i], rs[|rs| - 1])
  {
  }

  // ----- Each part of the snapshot ----------------------------------------------------------------------------

  lemma PeopleSnoc(rs: seq<Record>, r: Record, p: Principal)
    ensures AdminDeclared(rs + [r], p) <==> AdminDeclared(rs, p) || (r.UserRecord? && r.principal == p && r.admin)
    ensures DisabledDeclared(rs + [r], p) <==> DisabledDeclared(rs, p) || Disables(r, p)
  {
    var all := rs + [r];
    assert all[|rs|] == r && forall i :: 0 <= i < |rs| ==> all[i] == rs[i];
  }

  /** Whoever the last record is about, no record before it was. */
  lemma FirstOfPrincipal(rs: seq<Record>, r: Record, p: Principal)
    requires forall i :: 0 <= i < |rs| ==> !Clash(rs[i], r)
    requires IsIdentity(r) && r.principal == p
    ensures !AdminDeclared(rs, p) && !DisabledDeclared(rs, p)
  {
  }

  lemma {:induction false} CompiledAdmins(predefined: RoleTable, rs: seq<Record>, p: Principal)
    requires Unique(rs)
    ensures Holds(Compile(predefined, rs).admins, p) <==> AdminDeclared(rs, p)
  {
    if rs != [] {
      var init, last := rs[..|rs| - 1], rs[|rs| - 1];
      UniqueInit(rs);
      CompiledAdmins(predefined, init, p);
      PeopleSnoc(init, last, p);
      assert rs == init + [last];
      if IsIdentity(last) && last.principal == p {
        FirstOfPrincipal(init, last, p);
      }
    }
  }

  lemma {:induction false} CompiledDisabled(predefined: RoleTable, rs: seq<Record>, p: Principal)
    requires Unique(rs)
    ensures Holds(Compile(predefined, rs).disabled, p) <==> DisabledDeclared(rs, p)
  {
    if rs != [] {
      var init, last := rs[..|rs| - 1], rs[|rs| - 1];
      UniqueInit(rs);
      CompiledDisabled(predefined, init, p);
      PeopleSnoc(init, last, p);
      assert rs == init + [last];
      if IsIdentity(last) && last.principal == p {
        FirstOfPrincipal(init, last, p);
      }
    }
  }

  lemma {:induction false} MembersAdded(groups: map<Principal, seq<Principal>>, members: seq<Principal>,
                                        group: Principal, p: Principal, g: Principal)
    ensures var after := AddMembers(groups, members, group);
            (p in after && g in after[p]) <==> ((p in groups && g in groups[p]) || (g == group && p in members))
  {
    if members != [] {
      MembersAdded(groups, members[..|members| - 1], group, p, g);
      assert members == members[..|members| - 1] + [members[|members| - 1]];
    }
  }

  lemma {:induction false} CompiledGroups(predefined: RoleTable, rs: seq<Record>, p: Principal, g: Principal)
    ensures g in GroupsOf(Compile(predefined, rs), p) <==> MemberDeclared(rs, p, g)
  {
    if rs != [] {
      CompiledGroups(predefined, rs[..|rs| - 1], p, g);
      var last := rs[|rs| - 1];
      assert rs == rs[..|rs| - 1] + [last];
      if last.GroupRecord? {
        MembersAdded(Compile(predefined, rs[..|rs| - 1]).memberGroups, last.members, last.principal, p, g);
      }
    }
  }

  predicate RoleNamed(r: Record, role: string) {
    r.RoleRecord? && r.name == role
  }

  ghost predicate HasRoleRecord(rs: seq<Record>, role: string) {
    exists i :: 0 <= i < |rs| && RoleNamed(rs[i], role)
  }

  lemma HasRoleSnoc(rs: seq<Record>, r: Record, role: string)
    ensures HasRoleRecord(rs + [r], role) <==> HasRoleRecord(rs, role) || RoleNamed(r, role)
  {
    var all := rs + [r];
    assert all[|rs|] == r && forall i :: 0 <= i < |rs| ==> all[i] == rs[i];
  }

  lemma {:induction false} CompiledRoleNames(predefined: RoleTable, rs: seq<Record>, role: string)
    ensures role in Compile(predefined, rs).roles <==> role in predefined || HasRoleRecord(rs, role)
    ensures role in predefined ==> Compile(predefined, rs).roles[role] == predefined[role]
  {
    if rs != [] {
      var init, last := rs[..|rs| - 1], rs[|rs| - 1];
      CompiledRoleNames(predefined, init, role);
      HasRoleSnoc(init, last, role);
      assert rs == init + [last];
    }
  }

  lemma RoleSnoc(predefined: RoleTable, rs: seq<Record>, r: Record, role: string, permission: string)
    requires role !in predefined
    ensures RoleDeclared(predefined, rs + [r], role, permission)
            <==> RoleDeclared(predefined, rs, role, permission) || (RoleNamed(r, role) && permission in r.permissions)
    ensures RoleDeclared(predefined, rs, role, permission) ==> HasRoleRecord(rs, role)
  {
    var all := rs + [r];
    assert all[|rs|] == r && forall i :: 0 <= i < |rs| ==> all[i] == rs[i];
  }

  lemma FirstOfRole(rs: seq<Record>, r: Record, role: string)
    requires (forall i :: 0 <= i < |rs| ==> !Clash(rs[i], r)) && RoleNamed(r, role)
    ensures !HasRoleRecord(rs, role)
  {
  }

  lemma {:induction false} CompiledRoles(predefined: RoleTable, rs: seq<Record>, role: string, permission: string)
    requires Unique(rs)
    ensures RoleHas(Compile(predefined, rs), role, permission) <==> RoleDeclared(predefined, rs, role, permission)
  {
    if role in predefined {
      CompiledRoleNames(predefined, rs, role);
    } else if rs != [] {
      var init, last := rs[..|rs| - 1], rs[|rs| - 1];
      UniqueInit(rs);
      CompiledRoles(predefined, init, role, permission);
      CompiledRoleNames(predefined, init, role);
      RoleSnoc(predefined, init, last, role, permission);
      assert rs == init + [last];
      if RoleNamed(last, role) {
        FirstOfRole(init, last, role);
      }
    }
  }

  lemma {:induction false} CompiledPolicies(predefined: RoleTable, rs: seq<Record>, scope: string, b: Binding)
    requires Unique(rs)
    ensures b in BindingsAt(Compile(predefined, rs), scope) <==> BindingDeclared(rs, scope, b)
  {
    if rs != [] {
      UniqueInit(rs);
      CompiledPolicies(predefined, rs[..|rs| - 1], scope, b);
      assert rs == rs[..|rs| - 1] + [rs[|rs| - 1]];
    }
  }

  // ----- The decision -------------------------------------------------------------------------------------------

  lemma CompiledBinds(predefined: RoleTable, rs: seq<Record>, p: Principal, permission: string, b: Binding)
    requires Unique(rs)
    ensures Binds(Compile(predefined, rs), p, permission, b) <==> BindsDeclared(predefined, rs, p, permission, b)
  {
    CompiledRoles(predefined, rs, b.role, permission);
    forall i | 0 <= i < |b.members|
      ensures b.members[i] in GroupsOf(Compile(predefined, rs), p) <==> MemberDeclared(rs, p, b.members[i])
    {
      CompiledGroups(predefined, rs, p, b.members[i]);
    }
  }

  lemma CompiledScope(predefined: RoleTable, rs: seq<Record>, p: Principal, permission: string, scope: string)
    requires Unique(rs)
    ensures ScopeGrants(Compile(predefined, rs), p, permission, scope)
        <==> ScopeDeclared(predefined, rs, p, permission, scope)
  {
    var snap := Compile(predefined, rs);
    var bindings := BindingsAt(snap, scope);
    if ScopeGrants(snap, p, permission, scope) {
      var i :| 0 <= i < |bindings| && Binds(snap, p, permission, bindings[i]);
      CompiledPolicies(predefined, rs, scope, bindings[i]);
      CompiledBinds(predefined, rs, p, permission, bindings[i]);
      assert BindingDeclared(rs, scope, bindings[i]);
    }
    if ScopeDeclared(predefined, rs, p, permission, scope) {
      var b :| BindingDeclared(rs, scope, b) && BindsDeclared(predefined, rs, p, permission, b);
      CompiledPolicies(predefined, rs, scope, b);
      CompiledBinds(predefined, rs, p, permission, b);
      var i :| 0 <= i < |bindings| && bindings[i] == b;
      assert Binds(snap, p, permission, bindings[i]);
    }
  }

  /** The snapshot compiled from well-formed records grants exactly what they declare. */
  lemma CompiledIsDeclared(predefined: RoleTable, rs: seq<Record>, p: Principal, permission: string,
                           scopes: seq<string>)
    requires Unique(rs)
    ensures Grants(Compile(predefined, rs), p, permission, scopes) <==> Declared(predefined, rs, p, permission, scopes)
  {
    CompiledAdmins(predefined, rs, p);
    CompiledDisabled(predefined, rs, p);
    forall i | 0 <= i < |scopes|
      ensures ScopeGrants(Compile(predefined, rs), p, permission, scopes[i])
          <==> ScopeDeclared(predefined, rs, p, permission, scopes[i])
    {
      CompiledScope(predefined, rs, p, permission, scopes[i]);
    }
  }

  /** No record permission reaches the system tenant: whoever is allowed anything there is an
      administrator or bound at a covering scope to a role with an IAM permission, and to change
      anything it takes the permission to set, not just to get. */
  lemma SystemTenantFloor(predefined: RoleTable, rs: seq<Record>, p: Principal, permission: string, region: string)
    requires Unique(rs)
    requires Grants(Compile(predefined, rs), p, EffectivePermission(permission, SYSTEM_TENANT),
                    Scopes(SYSTEM_TENANT, region))
    ensures || AdminDeclared(rs, p)
            || exists i :: 0 <= i < |Scopes(SYSTEM_TENANT, region)|
                  && ScopeDeclared(predefined, rs, p, if Reads(permission) then IAM_GET else IAM_SET,
                                   Scopes(SYSTEM_TENANT, region)[i])
  {
    var scopes := Scopes(SYSTEM_TENANT, region);
    CompiledIsDeclared(predefined, rs, p, EffectivePermission(permission, SYSTEM_TENANT), scopes);
  }

  // ----- Order does not matter ------------------------------------------------------------------------

  ghost predicate SameRecords(rs: seq<Record>, ts: seq<Record>) {
    (forall i :: 0 <= i < |rs| ==> rs[i] in ts) && (forall i :: 0 <= i < |ts| ==> ts[i] in rs)
  }

  lemma ScopeEitherWay(predefined: RoleTable, rs: seq<Record>, ts: seq<Record>, p: Principal, permission: string,
                       scope: string)
    requires SameRecords(rs, ts) && ScopeDeclared(predefined, rs, p, permission, scope)
    ensures ScopeDeclared(predefined, ts, p, permission, scope)
  {
    var b :| BindingDeclared(rs, scope, b) && BindsDeclared(predefined, rs, p, permission, b);
    PartsOutside(predefined, rs, ts, "", p, permission, b);
    assert BindingDeclared(ts, scope, b);
  }

  /** Two scans of the same well-formed records, in any orders, compile to snapshots that decide
      alike. */
  lemma ScanOrderIrrelevant(predefined: RoleTable, rs: seq<Record>, ts: seq<Record>, p: Principal,
                            permission: string, scopes: seq<string>)
    requires Unique(rs) && Unique(ts) && SameRecords(rs, ts)
    ensures Grants(Compile(predefined, rs), p, permission, scopes)
        <==> Grants(Compile(predefined, ts), p, permission, scopes)
  {
    CompiledIsDeclared(predefined, rs, p, permission, scopes);
    CompiledIsDeclared(predefined, ts, p, permission, scopes);
    PartsOutside(predefined, rs, ts, "", p, permission, Binding("", []));
    PartsOutside(predefined, ts, rs, "", p, permission, Binding("", []));
    forall i | 0 <= i < |scopes|
      ensures ScopeDeclared(predefined, rs, p, permission, scopes[i])
          <==> ScopeDeclared(predefined, ts, p, permission, scopes[i])
    {
      if ScopeDeclared(predefined, rs, p, permission, scopes[i]) {
        ScopeEitherWay(predefined, rs, ts, p, permission, scopes[i]);
      }
      if ScopeDeclared(predefined, ts, p, permission, scopes[i]) {
        ScopeEitherWay(predefined, ts, rs, p, permission, scopes[i]);
      }
    }
  }

  // ----- From stored records ---------------------------------------------------------------------------------

  /** A record carries the name its minor key gives it. */
  predicate NamedAsStored(d: Decoders, r: Raw) {
    && ("user/" <= r.minor && d.user(r.value).Some? ==> r.minor == "user/" + d.user(r.value).value.name)
    && ("sa/" <= r.minor && d.account(r.value).Some? ==> r.minor == "sa/" + d.account(r.value).value.name)
    && ("role/" <= r.minor && d.role(r.value).Some? ==> r.minor == "role/" + d.role(r.value).value.name)
  }

  ghost predicate AllNamed(d: Decoders, raws: seq<Raw>) {
    forall i :: 0 <= i < |raws| ==> NamedAsStored(d, raws[i])
  }

  ghost predicate EachOnce(raws: seq<Raw>) {
    forall i, j :: 0 <= i < j < |raws| ==> raws[i].minor != raws[j].minor
  }

  /** Every record under its own name, and each key scanned once. */
  ghost predicate WellFormed(d: Decoders, raws: seq<Raw>) {
    AllNamed(d, raws) && EachOnce(raws)
  }

  lemma SuffixEqual(prefix: string, a: string, b: string)
    requires prefix + a == prefix + b
    ensures a == b
  {
    assert a == (prefix + a)[|prefix|..] && b == (prefix + b)[|prefix|..];
  }

  lemma ScopeKeyInjective(a: string, b: string)
    requires PolicyScopeKey(a).Some? && PolicyScopeKey(a) == PolicyScopeKey(b)
    ensures a == b
  {
    var k := PolicyScopeKey(a).value;
    assert k[0] == 'i' || k[0] == 't' || k[0] == 'r';
    if k[0] != 'i' {
      assert k[2..] == a[9..] == b[9..];
      assert a == a[..9] + a[9..] && b == b[..9] + b[9..];
    }
  }

  lemma IdentitiesApart(a: string, b: string)
    ensures UserPrincipal(a) != AccountPrincipal(b)
    ensures UserPrincipal(a) != GroupPrincipal(b)
    ensures AccountPrincipal(a) != GroupPrincipal(b)
  {
    assert UserPrincipal(a)[0] == 'u' && AccountPrincipal(b)[0] == 's' && GroupPrincipal(b)[0] == 'g';
    assert AccountPrincipal(a)[0] == 's';
  }

  lemma ClashMeansSameMinor(d: Decoders, r: Raw, s: Raw)
    requires NamedAsStored(d, r) && NamedAsStored(d, s) && Clash(Parse(d, r), Parse(d, s))
    ensures r.minor == s.minor
  {
    var a, b := Parse(d, r), Parse(d, s);
    if a.UserRecord? && b.UserRecord? {
      SuffixEqual("user:", d.user(r.value).value.name, d.user(s.value).value.name);
    } else if a.AccountRecord? && b.AccountRecord? {
      SuffixEqual("serviceAccount:", d.account(r.value).value.name, d.account(s.value).value.name);
    } else if a.PolicyRecord? {
      ScopeKeyInjective(r.minor, s.minor);
    } else if a.UserRecord? {
      IdentitiesApart(d.user(r.value).value.name, d.account(s.value).value.name);
    } else if a.AccountRecord? {
      IdentitiesApart(d.user(s.value).value.name, d.account(r.value).value.name);
    }
  }

  lemma ParsedUnique(d: Decoders, raws: seq<Raw>)
    requires WellFormed(d, raws)
    ensures Unique(Parsed(d, raws))
  {
    forall i, j | 0 <= i < j < |raws| ensures !Clash(Parsed(d, raws)[i], Parsed(d, raws)[j]) {
      if Clash(Parse(d, raws[i]), Parse(d, raws[j])) {
        ClashMeansSameMinor(d, raws[i], raws[j]);
        assert false;
      }
    }
  }

  // ----- Tenants ----------------------------------------------------------------------------------------------

  /** Region scopes of two tenants can coincide exactly when one name is the other, or the other
      followed by a slash and more. */
  lemma RegionScopesCollide(a: string, b: string)
    ensures (exists x, y :: x != "" && y != "" && RegionScope(a, x) == RegionScope(b, y))
            <==> a == b || a + "/" <= b || b + "/" <= a
  {
    if x, y :| x != "" && y != "" && RegionScope(a, x) == RegionScope(b, y) {
      assert RegionScope(a, x)[2..] == a + "/" + x && RegionScope(b, y)[2..] == b + "/" + y;
      SlashPrefix(a, x, b, y);
    }
    if a == b {
      assert RegionScope(a, "z") == RegionScope(b, "z");
    } else if a + "/" <= b {
      SlashCollision(a, b, "z");
    } else if b + "/" <= a {
      SlashCollision(b, a, "z");
    }
  }

  lemma SlashPrefix(a: string, x: string, b: string, y: string)
    requires a + "/" + x == b + "/" + y
    ensures a == b || a + "/" <= b || b + "/" <= a
  {
    var s := a + "/" + x;
    assert s[|a|] == '/' && s[|b|] == '/' && s[..|a|] == a && s[..|b|] == b;
    if |a| < |b| {
      assert b[|a|] == '/' && b[..|a|] == a;
      assert b[..|a| + 1] == a + "/";
    } else if |b| < |a| {
      assert a[|b|] == '/' && a[..|b|] == b;
      assert a[..|b| + 1] == b + "/";
    }
  }

  /** A region of the longer name is a region of the shorter one. */
  lemma SlashCollision(a: string, b: string, z: string)
    requires a + "/" <= b
    ensures RegionScope(a, b[|a| + 1..] + "/" + z) == RegionScope(b, z)
  {
    assert b == a + "/" + b[|a| + 1..];
  }

  /** A policy record at the tenant's scope or at one of its regions. */
  ghost predicate OfTenant(r: Record, tenant: string) {
    r.PolicyRecord? && (r.scope == TenantScope(tenant) || exists region :: r.scope == RegionScope(tenant, region))
  }

  ghost predicate AgreeOutside(rs: seq<Record>, ts: seq<Record>, tenant: string) {
    && (forall i :: 0 <= i < |rs| ==> OfTenant(rs[i], tenant) || rs[i] in ts)
    && (forall i :: 0 <= i < |ts| ==> OfTenant(ts[i], tenant) || ts[i] in rs)
  }

  /** A request on b can meet a policy of a: b is named at all, and one name is the other or
      extends it by a slash. */
  predicate Entangled(a: string, b: string) {
    b != "" && (a == b || a + "/" <= b || b + "/" <= a)
  }

  predicate Slashless(s: string) {
    forall i :: 0 <= i < |s| ==> s[i] != '/'
  }

  lemma NoSlashPrefix(a: string, b: string)
    requires Slashless(b)
    ensures !(a + "/" <= b)
  {
    assert |a| < |b| ==> b[|a|] != '/';
    assert (a + "/")[|a|] == '/';
  }

  /** Names as the policy keys expect them, without a slash, are never entangled. */
  lemma SlashlessApart(a: string, b: string)
    requires a != b && Slashless(a) && Slashless(b)
    ensures !Entangled(a, b)
  {
    NoSlashPrefix(a, b);
    NoSlashPrefix(b, a);
  }

  lemma ScopesApart(a: string, b: string, region: string, scope: string)
    requires !Entangled(a, b) && scope in Scopes(b, region)
    ensures scope != TenantScope(a) && forall x :: scope != RegionScope(a, x)
  {
    assert InstanceScope()[0] == 'i' && TenantScope(a)[0] == 't' && TenantScope(b)[0] == 't';
    assert RegionScope(b, region)[0] == 'r';
    forall x ensures scope != RegionScope(a, x) {
      assert RegionScope(a, x)[0] == 'r';
      if b != "" && scope == RegionScope(b, region) == RegionScope(a, x) {
        assert RegionScope(a, x)[2..] == a + "/" + x && RegionScope(b, region)[2..] == b + "/" + region;
        SlashPrefix(a, x, b, region);
      }
    }
    if b != "" && scope == TenantScope(b) == TenantScope(a) {
      SuffixEqual("t/", a, b);
    }
  }

  lemma PartsOutside(predefined: RoleTable, rs: seq<Record>, ts: seq<Record>, tenant: string, p: Principal,
                     permission: string, b: Binding)
    requires AgreeOutside(rs, ts, tenant)
    ensures AdminDeclared(rs, p) ==> AdminDeclared(ts, p)
    ensures DisabledDeclared(rs, p) ==> DisabledDeclared(ts, p)
    ensures RoleDeclared(predefined, rs, b.role, permission) ==> RoleDeclared(predefined, ts, b.role, permission)
    ensures forall g :: MemberDeclared(rs, p, g) ==> MemberDeclared(ts, p, g)
    ensures BindsDeclared(predefined, rs, p, permission, b) ==> BindsDeclared(predefined, ts, p, permission, b)
  {
  }

  lemma ScopeOutside(predefined: RoleTable, rs: seq<Record>, ts: seq<Record>, a: string, b: string, region: string,
                     p: Principal, permission: string, scope: string)
    requires AgreeOutside(rs, ts, a) && !Entangled(a, b) && scope in Scopes(b, region)
    requires ScopeDeclared(predefined, rs, p, permission, scope)
    ensures ScopeDeclared(predefined, ts, p, permission, scope)
  {
    var x :| BindingDeclared(rs, scope, x) && BindsDeclared(predefined, rs, p, permission, x);
    PartsOutside(predefined, rs, ts, a, p, permission, x);
    ScopesApart(a, b, region, scope);
    assert BindingDeclared(ts, scope, x);
  }

  /** The records decide a request on tenant b alike. */
  ghost predicate DecideAlike(predefined: RoleTable, rs: seq<Record>, ts: seq<Record>, b: string, region: string,
                              p: Principal, permission: string) {
    Grants(Compile(predefined, rs), p, permission, Scopes(b, region))
    <==> Grants(Compile(predefined, ts), p, permission, Scopes(b, region))
  }

  /** No policy record of one tenant or its regions bears on a request to another that it is not
      entangled with. */
  lemma TenantIsolation(predefined: RoleTable, rs: seq<Record>, ts: seq<Record>, a: string, b: string, region: string,
                        p: Principal, permission: string)
    requires Unique(rs) && Unique(ts) && AgreeOutside(rs, ts, a) && !Entangled(a, b)
    ensures DecideAlike(predefined, rs, ts, b, region, p, permission)
  {
    var scopes := Scopes(b, region);
    CompiledIsDeclared(predefined, rs, p, permission, scopes);
    CompiledIsDeclared(predefined, ts, p, permission, scopes);
    PartsOutside(predefined, rs, ts, a, p, permission, Binding("", []));
    PartsOutside(predefined, ts, rs, a, p, permission, Binding("", []));
    forall i | 0 <= i < |scopes|
      ensures ScopeDeclared(predefined, rs, p, permission, scopes[i])
              <==> ScopeDeclared(predefined, ts, p, permission, scopes[i])
    {
      if ScopeDeclared(predefined, rs, p, permission, scopes[i]) {
        ScopeOutside(predefined, rs, ts, a, b, region, p, permission, scopes[i]);
      }
      if ScopeDeclared(predefined, ts, p, permission, scopes[i]) {
        ScopeOutside(predefined, ts, rs, a, b, region, p, permission, scopes[i]);
      }
    }
  }

  // ----- Entangled tenants do leak ---------------------------------------------------------------------------

  /** A region of b, never empty, in which a request meets a policy of a. */
  function SharedRegion(a: string, b: string): (region: string)
    ensures region != ""
  {
    if b + "/" <= a then a[|b| + 1..] + "/z" else "z"
  }

  function SharedScope(a: string, b: string): string {
    if a == b then TenantScope(a) else RegionScope(b, SharedRegion(a, b))
  }

  lemma SharedScopeOfBoth(a: string, b: string)
    requires Entangled(a, b)
    ensures SharedScope(a, b) in Scopes(b, SharedRegion(a, b))
    ensures OfTenant(PolicyRecord(SharedScope(a, b), []), a)
  {
    if a != b {
      if b + "/" <= a {
        SlashCollision(b, a, "z");
        assert a[|b| + 1..] + "/" + "z" == SharedRegion(a, b);
        assert SharedScope(a, b) == RegionScope(a, "z");
      } else {
        SlashCollision(a, b, "z");
        assert SharedScope(a, b) == RegionScope(a, b[|a| + 1..] + "/" + "z");
      }
    }
  }

  lemma {:induction false} LongName(names: set<string>) returns (n: string)
    ensures forall s :: s in names ==> |s| < |n|
  {
    if names == {} {
      n := "";
    } else {
      var s :| s in names;
      var m := LongName(names - {s});
      n := m + s + "r";
      forall x | x in names ensures |x| < |n| {
        assert x == s || x in names - {s};
      }
    }
  }

  /** One binding of one role at one scope, and the role. */
  function OneGrant(scope: string, role: string, p: Principal, permission: string): seq<Record> {
    [PolicyRecord(scope, [Binding(role, [p])]), RoleRecord(role, [permission])]
  }

  lemma OneGrantGrants(predefined: RoleTable, scope: string, role: string, p: Principal, permission: string,
                       scopes: seq<string>)
    requires role !in predefined && p != "" && scope in scopes
    ensures Unique(OneGrant(scope, role, p, permission)) && Unique([RoleRecord(role, [permission])])
    ensures Grants(Compile(predefined, OneGrant(scope, role, p, permission)), p, permission, scopes)
    ensures !Grants(Compile(predefined, [RoleRecord(role, [permission])]), p, permission, scopes)
  {
    var rs, ts := OneGrant(scope, role, p, permission), [RoleRecord(role, [permission])];
    var b := Binding(role, [p]);
    CompiledIsDeclared(predefined, rs, p, permission, scopes);
    CompiledIsDeclared(predefined, ts, p, permission, scopes);
    assert rs[0].bindings[0] == b && b.members[0] == p && rs[1].permissions[0] == permission;
    assert BindingDeclared(rs, scope, b) && BindsDeclared(predefined, rs, p, permission, b);
    var i :| 0 <= i < |scopes| && scopes[i] == scope;
    assert ScopeDeclared(predefined, rs, p, permission, scopes[i]);
  }

  /** For entangled tenants there are records, and a request with a region of its own, that a
      single policy of a decides on b. */
  lemma TenantLeak(predefined: RoleTable, a: string, b: string, p: Principal, permission: string)
    returns (rs: seq<Record>, ts: seq<Record>, region: string)
    requires Entangled(a, b) && p != ""
    ensures Unique(rs) && Unique(ts) && AgreeOutside(rs, ts, a) && region != ""
    ensures !DecideAlike(predefined, rs, ts, b, region, p, permission)
  {
    var role := LongName(predefined.Keys);
    var scope := SharedScope(a, b);
    region := SharedRegion(a, b);
    SharedScopeOfBoth(a, b);
    rs, ts := OneGrant(scope, role, p, permission), [RoleRecord(role, [permission])];
    assert role !in predefined;
    OneGrantGrants(predefined, scope, role, p, permission, Scopes(b, region));
    assert OfTenant(rs[0], a) && rs[1] == ts[0];
  }

  /** Whatever policies of a say, requests on b are decided alike. */
  ghost predicate Isolated(predefined: RoleTable, a: string, b: string) {
    forall rs, ts, region, p, permission :: Unique(rs) && Unique(ts) && AgreeOutside(rs, ts, a) ==>
      DecideAlike(predefined, rs, ts, b, region, p, permission)
  }

  /** Tenant b is isolated from a exactly when they are not entangled. */
  lemma IsolatedExactly(predefined: RoleTable, a: string, b: string)
    ensures Isolated(predefined, a, b) <==> !Entangled(a, b)
  {
    if Entangled(a, b) {
      var rs, ts, region := TenantLeak(predefined, a, b, "user:x", "");
      assert !DecideAlike(predefined, rs, ts, b, region, "user:x", "");
    } else {
      forall rs, ts, region, p, permission | Unique(rs) && Unique(ts) && AgreeOutside(rs, ts, a)
        ensures DecideAlike(predefined, rs, ts, b, region, p, permission)
      {
        TenantIsolation(predefined, rs, ts, a, b, region, p, permission);
      }
    }
  }
}
