/** Who may do what, told from the stored records themselves: their minor keys and what they
    decode to. */
module StoredAccess {
  import opened Iam
  import opened IamLaws

  // ----- What one stored record says -----------------------------------------------------------------

  predicate MakesAdmin(d: Decoders, r: Raw, p: Principal) {
    && r.value != [] && "user/" <= r.minor && d.user(r.value).Some?
    && var u := d.user(r.value).value; p == "user:" + u.name && u.admin
  }

  predicate DisablesUser(d: Decoders, r: Raw, p: Principal) {
    && r.value != [] && "user/" <= r.minor && d.user(r.value).Some?
    && var u := d.user(r.value).value; p == "user:" + u.name && u.disabled
  }

  predicate DisablesAccount(d: Decoders, r: Raw, p: Principal) {
    && r.value != [] && "sa/" <= r.minor && d.account(r.value).Some?
    && var a := d.account(r.value).value; p == "serviceAccount:" + a.name && a.disabled
  }

  predicate Enrolls(d: Decoders, r: Raw, p: Principal, group: Principal) {
    && r.value != [] && "group/" <= r.minor && d.group(r.value).Some?
    && var g := d.group(r.value).value; group == "group:" + g.name && p in g.members
  }

  predicate Permits(d: Decoders, r: Raw, role: string, permission: string) {
    && r.value != [] && "role/" <= r.minor && d.role(r.value).Some?
    && var x := d.role(r.value).value; x.name == role && permission in x.permissions
  }

  predicate Binds(d: Decoders, r: Raw, b: Binding) {
    r.value != [] && d.policy(r.value).Some? && b in d.policy(r.value).value.bindings
  }

  /** The policies a request on a tenant and region falls under, by where they are stored. */
  predicate Covers(minor: string, tenant: string, region: string) {
    || minor == "policy/i"
    || (tenant != "" && minor == "policy/t/" + tenant)
    || (tenant != "" && region != "" && minor == "policy/r/" + tenant + "/" + region)
  }

  // ----- What they say together -------------------------------------------------------------------------

  ghost predicate StoredAdmin(d: Decoders, raws: seq<Raw>, p: Principal) {
    exists i :: 0 <= i < |raws| && MakesAdmin(d, raws[i], p)
  }

  ghost predicate StoredDisabled(d: Decoders, raws: seq<Raw>, p: Principal) {
    exists i :: 0 <= i < |raws| && (DisablesUser(d, raws[i], p) || DisablesAccount(d, raws[i], p))
  }

  ghost predicate StoredMember(d: Decoders, raws: seq<Raw>, p: Principal, group: Principal) {
    exists i :: 0 <= i < |raws| && Enrolls(d, raws[i], p, group)
  }

  /** The server's own roles first, then stored ones. */
  ghost predicate StoredRole(d: Decoders, predefined: RoleTable, raws: seq<Raw>, role: string, permission: string) {
    if role in predefined then permission in predefined[role]
    else exists i :: 0 <= i < |raws| && Permits(d, raws[i], role, permission)
  }

  /** The binding names p, or a group p is in, and its role has the permission. */
  ghost predicate Gives(d: Decoders, predefined: RoleTable, raws: seq<Raw>, p: Principal, permission: string,
                        b: Binding) {
    && (exists j :: 0 <= j < |b.members| && (b.members[j] == p || StoredMember(d, raws, p, b.members[j])))
    && StoredRole(d, predefined, raws, b.role, permission)
  }

  ghost predicate BoundBy(d: Decoders, predefined: RoleTable, raws: seq<Raw>, p: Principal, permission: string,
                          r: Raw) {
    exists b :: Binds(d, r, b) && Gives(d, predefined, raws, p, permission, b)
  }

  /** Named, not disabled, and an administrator or bound in a policy that covers the request. */
  ghost predicate StoredGrants(d: Decoders, predefined: RoleTable, raws: seq<Raw>, p: Principal, permission: string,
                               tenant: string, region: string) {
    && p != "" && !StoredDisabled(d, raws, p)
    && (|| StoredAdmin(d, raws, p)
        || exists i :: 0 <= i < |raws| && Covers(raws[i].minor, tenant, region)
                       && BoundBy(d, predefined, raws, p, permission, raws[i]))
  }

  // ----- Reading one record ---------------------------------------------------------------------------------

  /** The prefixes exclude each other. */
  lemma Kinds(minor: string)
    ensures KindOf(minor).UserKind? <==> "user/" <= minor
    ensures KindOf(minor).AccountKind? <==> "sa/" <= minor
    ensures KindOf(minor).GroupKind? <==> "group/" <= minor
    ensures KindOf(minor).RoleKind? <==> "role/" <= minor
    ensures KindOf(minor).PolicyKind? <==> PolicyScopeKey(minor).Some?
    ensures KindOf(minor).PolicyKind? ==> KindOf(minor).scope == PolicyScopeKey(minor).value
  {
    if minor != "" {
      var c := minor[0];
      assert ("user/" <= minor ==> c == 'u') && ("sa/" <= minor ==> c == 's') && ("group/" <= minor ==> c == 'g');
      assert "role/" <= minor ==> c == 'r';
      assert "policy/t/" <= minor || "policy/r/" <= minor || minor == "policy/i" ==> c == 'p';
    }
  }

  lemma ReadsPeople(d: Decoders, r: Raw, p: Principal)
    ensures var rec := Parse(d, r);
            && (MakesAdmin(d, r, p) <==> rec.UserRecord? && rec.principal == p && rec.admin)
            && (DisablesUser(d, r, p) || DisablesAccount(d, r, p) <==> Disables(rec, p))
            && (forall g :: Enrolls(d, r, p, g) <==> InGroup(rec, p, g))
  {
    Kinds(r.minor);
  }

  lemma ReadsRoles(d: Decoders, r: Raw, role: string, permission: string)
    ensures var rec := Parse(d, r);
            Permits(d, r, role, permission) <==> rec.RoleRecord? && rec.name == role && permission in rec.permissions
  {
    Kinds(r.minor);
  }

  lemma Prefixed(prefix: string, s: string, rest: string)
    ensures s == prefix + rest <==> prefix <= s && s[|prefix|..] == rest
  {
    assert prefix <= s ==> s == prefix + s[|prefix|..];
  }

  /** A policy applies at the scopes of a request exactly when it is stored where it covers it. */
  lemma CoversScope(minor: string, tenant: string, region: string)
    ensures Covers(minor, tenant, region)
            <==> PolicyScopeKey(minor).Some? && PolicyScopeKey(minor).value in Scopes(tenant, region)
  {
    Prefixed("policy/t/", minor, tenant);
    Prefixed("policy/r/", minor, tenant + "/" + region);
    assert "policy/r/" + tenant + "/" + region == "policy/r/" + (tenant + "/" + region);
    assert ("policy/t/" <= minor ==> minor[7] == 't') && ("policy/r/" <= minor ==> minor[7] == 'r');
    if minor == "policy/i" {
      assert Scopes(tenant, region)[|Scopes(tenant, region)| - 1] == "i";
    } else if "policy/t/" <= minor {
      TenantScopeOf(minor[9..], tenant, region);
    } else if "policy/r/" <= minor {
      RegionScopeOf(minor[9..], tenant, region);
    }
  }

  lemma TenantScopeOf(rest: string, tenant: string, region: string)
    ensures "t/" + rest in Scopes(tenant, region) <==> tenant != "" && rest == tenant
  {
    var k := "t/" + rest;
    assert k[0] == 't' && RegionScope(tenant, region)[0] == 'r' && InstanceScope()[0] == 'i';
    if k == TenantScope(tenant) {
      SuffixEqual("t/", rest, tenant);
    }
  }

  lemma RegionScopeOf(rest: string, tenant: string, region: string)
    ensures "r/" + rest in Scopes(tenant, region) <==> tenant != "" && region != "" && rest == tenant + "/" + region
  {
    var k := "r/" + rest;
    assert k[0] == 'r' && TenantScope(tenant)[0] == 't' && InstanceScope()[0] == 'i';
    assert RegionScope(tenant, region) == "r/" + (tenant + "/" + region);
    if k == RegionScope(tenant, region) {
      SuffixEqual("r/", rest, tenant + "/" + region);
    }
  }

  lemma ReadsPolicies(d: Decoders, r: Raw, tenant: string, region: string, b: Binding)
    ensures var rec := Parse(d, r);
            Covers(r.minor, tenant, region) && Binds(d, r, b)
            <==> rec.PolicyRecord? && rec.scope in Scopes(tenant, region) && b in rec.bindings
  {
    Kinds(r.minor);
    CoversScope(r.minor, tenant, region);
  }

  // ----- Reading them all --------------------------------------------------------------------------------------

  lemma PeopleDeclared(d: Decoders, raws: seq<Raw>, p: Principal)
    ensures var rs := Parsed(d, raws);
            && (StoredAdmin(d, raws, p) <==> AdminDeclared(rs, p))
            && (StoredDisabled(d, raws, p) <==> DisabledDeclared(rs, p))
            && (forall g :: StoredMember(d, raws, p, g) <==> MemberDeclared(rs, p, g))
  {
    var rs := Parsed(d, raws);
    forall i | 0 <= i < |raws|
      ensures MakesAdmin(d, raws[i], p) <==> rs[i].UserRecord? && rs[i].principal == p && rs[i].admin
      ensures DisablesUser(d, raws[i], p) || DisablesAccount(d, raws[i], p) <==> Disables(rs[i], p)
      ensures forall g :: Enrolls(d, raws[i], p, g) <==> InGroup(rs[i], p, g)
    {
      ReadsPeople(d, raws[i], p);
    }
  }

  lemma RolesDeclared(d: Decoders, predefined: RoleTable, raws: seq<Raw>, role: string, permission: string)
    ensures StoredRole(d, predefined, raws, role, permission)
            <==> RoleDeclared(predefined, Parsed(d, raws), role, permission)
  {
    forall i | 0 <= i < |raws|
      ensures var rec := Parsed(d, raws)[i];
              Permits(d, raws[i], role, permission)
              <==> rec.RoleRecord? && rec.name == role && permission in rec.permissions
    {
      ReadsRoles(d, raws[i], role, permission);
    }
  }

  lemma GivesDeclared(d: Decoders, predefined: RoleTable, raws: seq<Raw>, p: Principal, permission: string, b: Binding)
    ensures Gives(d, predefined, raws, p, permission, b)
            <==> BindsDeclared(predefined, Parsed(d, raws), p, permission, b)
  {
    PeopleDeclared(d, raws, p);
    RolesDeclared(d, predefined, raws, b.role, permission);
  }

  ghost predicate Covered(d: Decoders, predefined: RoleTable, raws: seq<Raw>, p: Principal, permission: string,
                          tenant: string, region: string) {
    exists i :: 0 <= i < |raws| && Covers(raws[i].minor, tenant, region)
                && BoundBy(d, predefined, raws, p, permission, raws[i])
  }

  lemma CoveredIsDeclared(d: Decoders, predefined: RoleTable, raws: seq<Raw>, p: Principal, permission: string,
                          tenant: string, region: string)
    requires Covered(d, predefined, raws, p, permission, tenant, region)
    ensures var scopes := Scopes(tenant, region);
            exists i :: 0 <= i < |scopes| && ScopeDeclared(predefined, Parsed(d, raws), p, permission, scopes[i])
  {
    var rs, scopes := Parsed(d, raws), Scopes(tenant, region);
    var n :| 0 <= n < |raws| && Covers(raws[n].minor, tenant, region)
             && BoundBy(d, predefined, raws, p, permission, raws[n]);
    var b :| Binds(d, raws[n], b) && Gives(d, predefined, raws, p, permission, b);
    ReadsPolicies(d, raws[n], tenant, region, b);
    GivesDeclared(d, predefined, raws, p, permission, b);
    var i :| 0 <= i < |scopes| && scopes[i] == rs[n].scope;
    assert BindingDeclared(rs, scopes[i], b);
    assert ScopeDeclared(predefined, rs, p, permission, scopes[i]);
  }

  lemma DeclaredIsCovered(d: Decoders, predefined: RoleTable, raws: seq<Raw>, p: Principal, permission: string,
                          tenant: string, region: string, scope: string)
    requires scope in Scopes(tenant, region) && ScopeDeclared(predefined, Parsed(d, raws), p, permission, scope)
    ensures Covered(d, predefined, raws, p, permission, tenant, region)
  {
    var rs := Parsed(d, raws);
    var b :| BindingDeclared(rs, scope, b) && BindsDeclared(predefined, rs, p, permission, b);
    var n :| 0 <= n < |rs| && rs[n].PolicyRecord? && rs[n].scope == scope && b in rs[n].bindings;
    ReadsPolicies(d, raws[n], tenant, region, b);
    GivesDeclared(d, predefined, raws, p, permission, b);
    assert BoundBy(d, predefined, raws, p, permission, raws[n]);
  }

  lemma StoredIsDeclared(d: Decoders, predefined: RoleTable, raws: seq<Raw>, p: Principal, permission: string,
                         tenant: string, region: string)
    ensures StoredGrants(d, predefined, raws, p, permission, tenant, region)
            <==> Declared(predefined, Parsed(d, raws), p, permission, Scopes(tenant, region))
  {
    var rs, scopes := Parsed(d, raws), Scopes(tenant, region);
    PeopleDeclared(d, raws, p);
    if Covered(d, predefined, raws, p, permission, tenant, region) {
      CoveredIsDeclared(d, predefined, raws, p, permission, tenant, region);
    }
    if i :| 0 <= i < |scopes| && ScopeDeclared(predefined, rs, p, permission, scopes[i]) {
      DeclaredIsCovered(d, predefined, raws, p, permission, tenant, region, scopes[i]);
    }
  }

  /** The snapshot compiled from well-formed stored records decides every request on any tenant and
      region exactly as those records say. */
  lemma StoredDecides(d: Decoders, predefined: RoleTable, raws: seq<Raw>, p: Principal, permission: string,
                      tenant: string, region: string)
    requires WellFormed(d, raws)
    ensures Grants(Compile(predefined, Parsed(d, raws)), p, permission, Scopes(tenant, region))
            <==> StoredGrants(d, predefined, raws, p, permission, tenant, region)
  {
    ParsedUnique(d, raws);
    CompiledIsDeclared(predefined, Parsed(d, raws), p, permission, Scopes(tenant, region));
    StoredIsDeclared(d, predefined, raws, p, permission, tenant, region);
  }

  /** A request asks for the permission it names, and on the system tenant for that to read or to set
      IAM records instead. */
  lemma RequestDecides(d: Decoders, predefined: RoleTable, raws: seq<Raw>, p: Principal, permission: string,
                       tenant: string, region: string)
    requires WellFormed(d, raws)
    ensures var asks :=
              if tenant != "__system" then permission
              else if permission in ["cdb.records.get", "cdb.records.enumerate", "cdb.records.watch"] then "cdb.iam.get"
              else "cdb.iam.set";
            Grants(Compile(predefined, Parsed(d, raws)), p, EffectivePermission(permission, tenant),
                   Scopes(tenant, region))
            <==> StoredGrants(d, predefined, raws, p, asks, tenant, region)
  {
    StoredDecides(d, predefined, raws, p, EffectivePermission(permission, tenant), tenant, region);
  }
}
