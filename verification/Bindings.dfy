/** Granting and revoking a role at a scope: applyBinding in pkg/console/iam.go. */
module Bindings {
  import opened Bytes
  import opened Iam
  import opened IamLaws

  predicate BindsMember(b: Binding, role: string, m: Principal) {
    b.role == role && m in b.members
  }

  /** Some binding of the list gives the role to the member. */
  predicate Bound(bs: seq<Binding>, role: string, m: Principal) {
    exists i :: 0 <= i < |bs| && BindsMember(bs[i], role, m)
  }

  predicate HasRole(bs: seq<Binding>, role: string) {
    exists i :: 0 <= i < |bs| && bs[i].role == role
  }

  /** The members of a binding of the role once the change is made. */
  predicate Kept(members: seq<Principal>, grant: bool, before: bool, m: Principal) {
    if grant then before || m in members else before && m !in members
  }

  /** A map used as a set, listed in some order. */
  method KeysOf(s: set<Principal>) returns (out: seq<Principal>)
    ensures forall m :: m in out <==> m in s
  {
    out := [];
    var todo := s;
    while todo != {}
      invariant todo <= s && forall m :: m in out <==> m in s && m !in todo
      decreases |todo|
    {
      var m :| m in todo;
      out := out + [m];
      todo := todo - {m};
    }
  }

  method Merge(current: seq<Principal>, members: seq<Principal>, grant: bool) returns (merged: seq<Principal>)
    ensures forall m :: m in merged <==> Kept(members, grant, m in current, m)
  {
    var s: set<Principal> := {};
    for i := 0 to |current|
      invariant forall m :: m in s <==> m in current[..i]
    {
      s := s + {current[i]};
    }
    assert current[..|current|] == current;
    for i := 0 to |members|
      invariant forall m :: m in s <==> Kept(members[..i], grant, m in current, m)
    {
      assert members[..i + 1] == members[..i] + [members[i]];
      s := if grant then s + {members[i]} else s - {members[i]};
    }
    assert members[..|members|] == members;
    merged := KeysOf(s);
  }

  /** Each named member once. */
  method Dedup(members: seq<Principal>) returns (out: seq<Principal>)
    ensures forall m :: m in out <==> m in members && m != ""
  {
    var seen: set<Principal> := {};
    out := [];
    for i := 0 to |members|
      invariant forall m :: m in seen <==> m in members[..i] && m != ""
      invariant forall m :: m in out <==> m in seen
    {
      assert members[..i + 1] == members[..i] + [members[i]];
      if members[i] != "" && members[i] !in seen {
        seen := seen + {members[i]};
        out := out + [members[i]];
      }
    }
    assert members[..|members|] == members;
  }

  /** Who is bound afterwards. A role not yet bound is granted to the named members only; a role
      already bound also takes an empty name. */
  predicate BoundAfter(bs: seq<Binding>, role: string, members: seq<Principal>, grant: bool, r: string, m: Principal) {
    if r != role then Bound(bs, r, m)
    else if !grant then Bound(bs, r, m) && m !in members
    else Bound(bs, r, m) || (m in members && (HasRole(bs, role) || m != ""))
  }

  lemma BoundSnoc(bs: seq<Binding>, b: Binding, r: string, m: Principal)
    ensures Bound(bs + [b], r, m) <==> Bound(bs, r, m) || BindsMember(b, r, m)
    ensures HasRole(bs + [b], r) <==> HasRole(bs, r) || b.role == r
  {
    var all := bs + [b];
    assert all[|bs|] == b && forall i :: 0 <= i < |bs| ==> all[i] == bs[i];
  }

  /** The list so far, before a role that was not found is added. */
  predicate Changed(bs: seq<Binding>, role: string, members: seq<Principal>, grant: bool, r: string, m: Principal) {
    if r != role then Bound(bs, r, m)
    else if !grant then Bound(bs, r, m) && m !in members
    else Bound(bs, r, m) || (m in members && HasRole(bs, role))
  }

  /** One binding of the list: kept, merged or dropped. */
  method ChangeOne(b: Binding, role: string, members: seq<Principal>, grant: bool) returns (now: Option<Binding>)
    ensures b.role != role ==> now == Some(b)
    ensures b.role == role && now.Some? ==>
              now.value.role == role && forall m :: m in now.value.members <==> Kept(members, grant, m in b.members, m)
    ensures b.role == role && now.None? ==> forall m :: !Kept(members, grant, m in b.members, m)
  {
    if b.role != role {
      return Some(b);
    }
    var merged := Merge(b.members, members, grant);
    if |merged| > 0 {
      return Some(Binding(role, merged));
    }
    return None;
  }

  lemma ChangeStep(bs: seq<Binding>, b: Binding, role: string, members: seq<Principal>, grant: bool,
                   out: seq<Binding>, now: Option<Binding>)
    requires forall r, m :: Bound(out, r, m) <==> Changed(bs, role, members, grant, r, m)
    requires b.role != role ==> now == Some(b)
    requires b.role == role && now.Some? ==>
               now.value.role == role && forall m :: m in now.value.members <==> Kept(members, grant, m in b.members, m)
    requires b.role == role && now.None? ==> forall m :: !Kept(members, grant, m in b.members, m)
    ensures var next := if now.Some? then out + [now.value] else out;
            forall r, m :: Bound(next, r, m) <==> Changed(bs + [b], role, members, grant, r, m)
  {
    var next := if now.Some? then out + [now.value] else out;
    forall r, m ensures Bound(next, r, m) <==> Changed(bs + [b], role, members, grant, r, m) {
      BoundSnoc(bs, b, r, m);
      BoundSnoc(bs, b, role, m);
      if now.Some? {
        BoundSnoc(out, now.value, r, m);
      }
    }
  }

  method ApplyBinding(bs: seq<Binding>, role: string, members: seq<Principal>, grant: bool) returns (out: seq<Binding>)
    ensures forall r, m :: Bound(out, r, m) <==> BoundAfter(bs, role, members, grant, r, m)
  {
    out := [];
    var found := false;
    for i := 0 to |bs|
      invariant found <==> HasRole(bs[..i], role)
      invariant forall r, m :: Bound(out, r, m) <==> Changed(bs[..i], role, members, grant, r, m)
    {
      assert bs[..i + 1] == bs[..i] + [bs[i]];
      BoundSnoc(bs[..i], bs[i], role, "");
      var now := ChangeOne(bs[i], role, members, grant);
      ChangeStep(bs[..i], bs[i], role, members, grant, out, now);
      if bs[i].role == role {
        found := true;
      }
      if now.Some? {
        out := out + [now.value];
      }
    }
    assert bs[..|bs|] == bs;
    if grant && !found {
      var named := Dedup(members);
      var b := Binding(role, named);
      forall r, m ensures Bound(out + [b], r, m) <==> Bound(out, r, m) || BindsMember(b, r, m) {
        BoundSnoc(out, b, r, m);
      }
      out := out + [b];
    }
  }

  /** Revoking what was just granted to members that did not have it leaves everyone as before. */
  lemma RevokeUndoesGrant(bs: seq<Binding>, role: string, members: seq<Principal>, granted: seq<Binding>,
                          back: seq<Binding>,
                          r: string, m: Principal)
    requires forall x, y :: Bound(granted, x, y) <==> BoundAfter(bs, role, members, true, x, y)
    requires forall x, y :: Bound(back, x, y) <==> BoundAfter(granted, role, members, false, x, y)
    requires forall y :: y in members ==> !Bound(bs, role, y)
    ensures Bound(back, r, m) <==> Bound(bs, r, m)
  {
  }

  // ----- What it does to decisions --------------------------------------------------------------------

  /** p is the member, or in the group that is. */
  ghost predicate Speaks(rs: seq<Record>, p: Principal, m: Principal) {
    m == p || MemberDeclared(rs, p, m)
  }

  /** Whether the bindings of one scope grant p the permission. */
  ghost predicate ListGrants(predefined: RoleTable, rs: seq<Record>, bs: seq<Binding>, p: Principal,
                             permission: string) {
    exists r, m :: Bound(bs, r, m) && Speaks(rs, p, m) && RoleDeclared(predefined, rs, r, permission)
  }

  /** A scope grants by who is bound to what, not by how the bindings are written. */
  lemma ScopeByMembers(predefined: RoleTable, rs: seq<Record>, i: nat, p: Principal, permission: string)
    requires Unique(rs) && i < |rs| && rs[i].PolicyRecord?
    ensures ScopeDeclared(predefined, rs, p, permission, rs[i].scope)
        <==> ListGrants(predefined, rs, rs[i].bindings, p, permission)
  {
    var bs, scope := rs[i].bindings, rs[i].scope;
    if ScopeDeclared(predefined, rs, p, permission, scope) {
      var b :| BindingDeclared(rs, scope, b) && BindsDeclared(predefined, rs, p, permission, b);
      var j :| 0 <= j < |rs| && rs[j].PolicyRecord? && rs[j].scope == scope && b in rs[j].bindings;
      assert Clash(rs[i], rs[j]);
      var k :| 0 <= k < |b.members| && (b.members[k] == p || MemberDeclared(rs, p, b.members[k]));
      var x :| 0 <= x < |bs| && bs[x] == b;
      assert BindsMember(bs[x], b.role, b.members[k]);
      assert Bound(bs, b.role, b.members[k]) && Speaks(rs, p, b.members[k]);
    }
    if ListGrants(predefined, rs, bs, p, permission) {
      var r, m :| Bound(bs, r, m) && Speaks(rs, p, m) && RoleDeclared(predefined, rs, r, permission);
      var x :| 0 <= x < |bs| && BindsMember(bs[x], r, m);
      var k :| 0 <= k < |bs[x].members| && bs[x].members[k] == m;
      assert BindsDeclared(predefined, rs, p, permission, bs[x]) && BindingDeclared(rs, scope, bs[x]);
    }
  }

  /** Granting a role at a scope adds exactly what the role gives to exactly those members and
      their groups' members, and takes nothing away. An empty name counts as a member only where
      the role was bound before. */
  lemma GrantExact(predefined: RoleTable, rs: seq<Record>, bs: seq<Binding>, role: string, members: seq<Principal>,
                   after: seq<Binding>, p: Principal, permission: string)
    requires forall r, m :: Bound(after, r, m) <==> BoundAfter(bs, role, members, true, r, m)
    ensures ListGrants(predefined, rs, after, p, permission)
            <==> || ListGrants(predefined, rs, bs, p, permission)
                 || (&& RoleDeclared(predefined, rs, role, permission)
                     && exists m :: m in members && (m != "" || HasRole(bs, role)) && Speaks(rs, p, m))
  {
    if m :| m in members && (m != "" || HasRole(bs, role)) && Speaks(rs, p, m) {
      assert Bound(after, role, m);
    }
    forall r, m | Bound(bs, r, m) ensures Bound(after, r, m) {
    }
    forall r, m | Bound(after, r, m)
      ensures Bound(bs, r, m) || (r == role && m in members && (m != "" || HasRole(bs, role)))
    {
    }
  }
}
