/** After a principal is deleted nothing grants it anything, and nobody else notices. */
module PurgeLaws {
  import opened Bytes
  import opened Iam
  import opened IamLaws
  import opened Purge

  // ----- Bindings and records -----------------------------------------------------------------------

  lemma {:induction false} StripBindingsExact(bs: seq<Binding>, p: Principal, b: Binding)
    ensures b in StripBindings(bs, p)
            <==> b.members != [] && exists i :: 0 <= i < |bs| && b == StripBinding(bs[i], p)
  {
    if bs != [] {
      StripBindingsExact(bs[..|bs| - 1], p, b);
      assert bs == bs[..|bs| - 1] + [bs[|bs| - 1]];
    }
  }

  /** The record as purging p leaves it. */
  function StripRecord(r: Record, p: Principal): Record {
    match r
    case GroupRecord(g, members) => if p in members then GroupRecord(g, Without(members, p)) else r
    case PolicyRecord(scope, bs) => if Names(bs, p) then PolicyRecord(scope, StripBindings(bs, p)) else r
    case _ => r
  }

  predicate IdentityOf(r: Record, p: Principal) {
    IsIdentity(r) && r.principal == p
  }

  predicate Strips(r: Record, s: Record, p: Principal) {
    !IdentityOf(r, p) && s == StripRecord(r, p)
  }

  /** ts are the records rs with p's own record gone and p taken out of the others. */
  ghost predicate Cleared(rs: seq<Record>, ts: seq<Record>, p: Principal) {
    && (forall i :: 0 <= i < |rs| ==> IdentityOf(rs[i], p) || rs[i].Ignored? || StripRecord(rs[i], p) in ts)
    && (forall j :: 0 <= j < |ts| ==> HasSource(rs, ts[j], p))
  }

  ghost predicate HasSource(rs: seq<Record>, t: Record, p: Principal) {
    exists i :: 0 <= i < |rs| && Strips(rs[i], t, p)
  }

  /** No group has the principal's name: it is a user or a service account. */
  ghost predicate NotAGroup(rs: seq<Record>, p: Principal) {
    forall i :: 0 <= i < |rs| && rs[i].GroupRecord? ==> rs[i].principal != p
  }

  // ----- The deleted principal ----------------------------------------------------------------------

  predicate ComesFrom(b: Binding, c: Binding, p: Principal) {
    b == c || b == StripBinding(c, p)
  }

  lemma StrippedBindings(r: Record, p: Principal, b: Binding)
    requires r.PolicyRecord? && b in StripRecord(r, p).bindings
    ensures p !in b.members
    ensures exists i :: 0 <= i < |r.bindings| && ComesFrom(b, r.bindings[i], p)
  {
    if Names(r.bindings, p) {
      StripBindingsExact(r.bindings, p, b);
      var i :| 0 <= i < |r.bindings| && b == StripBinding(r.bindings[i], p);
      assert ComesFrom(b, r.bindings[i], p);
    }
  }

  lemma ClearedNames(rs: seq<Record>, ts: seq<Record>, p: Principal, scope: string, b: Binding) returns (c: Binding)
    requires Cleared(rs, ts, p) && BindingDeclared(ts, scope, b)
    ensures p !in b.members
    ensures BindingDeclared(rs, scope, c) && ComesFrom(b, c, p)
  {
    var j :| 0 <= j < |ts| && ts[j].PolicyRecord? && ts[j].scope == scope && b in ts[j].bindings;
    assert HasSource(rs, ts[j], p);
    var i :| 0 <= i < |rs| && Strips(rs[i], ts[j], p);
    StrippedBindings(rs[i], p, b);
    var k :| 0 <= k < |rs[i].bindings| && ComesFrom(b, rs[i].bindings[k], p);
    c := rs[i].bindings[k];
  }

  lemma ClearedIdentity(rs: seq<Record>, ts: seq<Record>, p: Principal, g: Principal)
    requires Cleared(rs, ts, p)
    ensures !AdminDeclared(ts, p) && !MemberDeclared(ts, p, g)
  {
    forall j | 0 <= j < |ts| ensures !IdentityOf(ts[j], p) && (ts[j].GroupRecord? ==> p !in ts[j].members) {
      assert HasSource(rs, ts[j], p);
      var i :| 0 <= i < |rs| && Strips(rs[i], ts[j], p);
    }
  }

  lemma DeletedIsDenied(predefined: RoleTable, rs: seq<Record>, ts: seq<Record>, p: Principal, permission: string,
                        scopes: seq<string>)
    requires Cleared(rs, ts, p)
    ensures !Declared(predefined, ts, p, permission, scopes)
  {
    ClearedIdentity(rs, ts, p, "");
    forall scope, b | BindingDeclared(ts, scope, b) ensures !BindsDeclared(predefined, ts, p, permission, b) {
      var _ := ClearedNames(rs, ts, p, scope, b);
      forall i | 0 <= i < |b.members| ensures b.members[i] != p && !MemberDeclared(ts, p, b.members[i]) {
        ClearedIdentity(rs, ts, p, b.members[i]);
      }
    }
  }

  // ----- Everybody else -----------------------------------------------------------------------------------

  lemma OthersFlags(rs: seq<Record>, ts: seq<Record>, p: Principal, q: Principal)
    requires Cleared(rs, ts, p) && q != p
    ensures AdminDeclared(rs, q) <==> AdminDeclared(ts, q)
    ensures DisabledDeclared(rs, q) <==> DisabledDeclared(ts, q)
  {
    forall i | 0 <= i < |rs| && IdentityOf(rs[i], q) ensures rs[i] in ts {
      assert StripRecord(rs[i], p) == rs[i];
    }
    forall j | 0 <= j < |ts| && IdentityOf(ts[j], q) ensures ts[j] in rs {
      assert HasSource(rs, ts[j], p);
      var i :| 0 <= i < |rs| && Strips(rs[i], ts[j], p);
    }
  }

  lemma OthersGroups(rs: seq<Record>, ts: seq<Record>, p: Principal, q: Principal, g: Principal)
    requires Cleared(rs, ts, p) && q != p
    ensures MemberDeclared(rs, q, g) <==> MemberDeclared(ts, q, g)
  {
    forall i | 0 <= i < |rs| && InGroup(rs[i], q, g) ensures exists j :: 0 <= j < |ts| && InGroup(ts[j], q, g) {
      var j :| 0 <= j < |ts| && ts[j] == StripRecord(rs[i], p);
      assert InGroup(ts[j], q, g);
    }
    forall j | 0 <= j < |ts| && InGroup(ts[j], q, g) ensures exists i :: 0 <= i < |rs| && InGroup(rs[i], q, g) {
      assert HasSource(rs, ts[j], p);
      var i :| 0 <= i < |rs| && Strips(rs[i], ts[j], p);
      assert InGroup(rs[i], q, g);
    }
  }

  lemma RolesKept(predefined: RoleTable, rs: seq<Record>, ts: seq<Record>, p: Principal, role: string,
                  permission: string)
    requires Cleared(rs, ts, p)
    ensures RoleDeclared(predefined, rs, role, permission) <==> RoleDeclared(predefined, ts, role, permission)
  {
    forall i | 0 <= i < |rs| && rs[i].RoleRecord? ensures rs[i] in ts {
      assert StripRecord(rs[i], p) == rs[i];
    }
    forall j | 0 <= j < |ts| && ts[j].RoleRecord? ensures ts[j] in rs {
      assert HasSource(rs, ts[j], p);
      var i :| 0 <= i < |rs| && Strips(rs[i], ts[j], p);
    }
  }

  lemma OthersBind(predefined: RoleTable, rs: seq<Record>, ts: seq<Record>, p: Principal, q: Principal,
                   permission: string, b: Binding)
    requires Cleared(rs, ts, p) && NotAGroup(rs, p) && q != p
    ensures BindsDeclared(predefined, rs, q, permission, b)
        <==> BindsDeclared(predefined, ts, q, permission, StripBinding(b, p))
    ensures BindsDeclared(predefined, rs, q, permission, b) <==> BindsDeclared(predefined, ts, q, permission, b)
  {
    RolesKept(predefined, rs, ts, p, b.role, permission);
    var kept := Without(b.members, p);
    forall m ensures MemberDeclared(rs, q, m) <==> MemberDeclared(ts, q, m) {
      OthersGroups(rs, ts, p, q, m);
    }
    forall i | 0 <= i < |b.members| && (b.members[i] == q
        || MemberDeclared(rs, q, b.members[i])) ensures b.members[i] in kept {
    }
    forall i | 0 <= i < |kept| ensures kept[i] in b.members {
    }
  }

  lemma OthersScopeKept(predefined: RoleTable, rs: seq<Record>, ts: seq<Record>, p: Principal, q: Principal,
                        permission: string, scope: string)
    requires Cleared(rs, ts, p) && NotAGroup(rs, p) && q != p
    requires ScopeDeclared(predefined, rs, q, permission, scope)
    ensures ScopeDeclared(predefined, ts, q, permission, scope)
  {
    var b :| BindingDeclared(rs, scope, b) && BindsDeclared(predefined, rs, q, permission, b);
    OthersBind(predefined, rs, ts, p, q, permission, b);
    var i :| 0 <= i < |rs| && rs[i].PolicyRecord? && rs[i].scope == scope && b in rs[i].bindings;
    var s := StripRecord(rs[i], p);
    if Names(rs[i].bindings, p) {
      StripBindingsExact(rs[i].bindings, p, StripBinding(b, p));
      assert StripBinding(b, p) in s.bindings;
      assert BindingDeclared(ts, scope, StripBinding(b, p));
    } else {
      assert BindingDeclared(ts, scope, b);
    }
  }

  lemma OthersScopeOnly(predefined: RoleTable, rs: seq<Record>, ts: seq<Record>, p: Principal, q: Principal,
                        permission: string, scope: string)
    requires Cleared(rs, ts, p) && NotAGroup(rs, p) && q != p
    requires ScopeDeclared(predefined, ts, q, permission, scope)
    ensures ScopeDeclared(predefined, rs, q, permission, scope)
  {
    var b :| BindingDeclared(ts, scope, b) && BindsDeclared(predefined, ts, q, permission, b);
    var c := ClearedNames(rs, ts, p, scope, b);
    OthersBind(predefined, rs, ts, p, q, permission, c);
  }

  lemma OthersUnaffected(predefined: RoleTable, rs: seq<Record>, ts: seq<Record>, p: Principal, q: Principal,
                         permission: string, scopes: seq<string>)
    requires Cleared(rs, ts, p) && NotAGroup(rs, p) && q != p
    ensures Declared(predefined, rs, q, permission, scopes) <==> Declared(predefined, ts, q, permission, scopes)
  {
    OthersFlags(rs, ts, p, q);
    forall i | 0 <= i < |scopes|
      ensures ScopeDeclared(predefined, rs, q, permission, scopes[i])
          <==> ScopeDeclared(predefined, ts, q, permission, scopes[i])
    {
      if ScopeDeclared(predefined, rs, q, permission, scopes[i]) {
        OthersScopeKept(predefined, rs, ts, p, q, permission, scopes[i]);
      }
      if ScopeDeclared(predefined, ts, q, permission, scopes[i]) {
        OthersScopeOnly(predefined, rs, ts, p, q, permission, scopes[i]);
      }
    }
  }

  // ----- From the store ----------------------------------------------------------------------------------------

  ghost predicate Lossless(d: Decoders, x: IndexCodec) {
    && (forall g :: d.group(x.encodeGroup(g)) == Some(g) && x.encodeGroup(g) != [])
    && (forall pol :: d.policy(x.encodePolicy(pol)) == Some(pol) && x.encodePolicy(pol) != [])
  }

  lemma Prefixes(minor: string)
    ensures "token/" <= minor || "cert/" <= minor ==> KindOf(minor) == OtherKind
    ensures "group/" <= minor ==> KindOf(minor) == GroupKind && !("token/" <= minor) && !("cert/" <= minor)
    ensures PolicyScopeKey(minor).Some? ==>
              && KindOf(minor) == PolicyKind(PolicyScopeKey(minor).value)
              && !("group/" <= minor) && !("token/" <= minor) && !("cert/" <= minor)
  {
    if minor != "" {
      var c := minor[0];
      assert ("user/" <= minor ==> c == 'u') && ("sa/" <= minor ==> c == 's') && ("group/" <= minor ==> c == 'g');
      assert ("role/" <= minor ==> c == 'r') && ("token/" <= minor ==> c == 't') && ("cert/" <= minor ==> c == 'c');
      assert "policy/t/" <= minor || "policy/r/" <= minor || minor == "policy/i" ==> c == 'p';
    }
  }

  /** Purging takes p out of exactly what the compiler reads of a record. */
  lemma RecordPurged(d: Decoders, x: IndexCodec, p: Principal, r: Raw)
    requires Lossless(d, x)
    ensures ActionOf(d, x, p, r) == Drop ==> Parse(d, r).Ignored?
    ensures ActionOf(d, x, p, r) != Drop ==>
              Parse(d, Raw(r.minor, PlanFor(d, x, p).NewValue(ActionOf(d, x, p, r),
                  r.value))) == StripRecord(Parse(d, r), p)
  {
    Prefixes(r.minor);
    var a := ActionOf(d, x, p, r);
    if a.NewPolicy? {
      var value := x.encodePolicy(StripPolicy(a.policy, p));
      assert d.policy(value) == Some(StripPolicy(a.policy, p)) && value != [];
    } else if a.NewGroup? {
      var value := x.encodeGroup(StripGroup(a.group, p));
      assert d.group(value) == Some(StripGroup(a.group, p)) && value != [];
    }
  }

  /** The principal named name and the minor key of its own record. */
  predicate OwnRecord(p: Principal, own: string, name: string) {
    || (p == UserPrincipal(name) && own == "user/" + name)
    || (p == AccountPrincipal(name) && own == "sa/" + name)
  }

  lemma OwnIdentity(d: Decoders, p: Principal, own: string, name: string, r: Raw)
    requires OwnRecord(p, own, name) && NamedAsStored(d, r)
    ensures r.minor == own ==> IdentityOf(Parse(d, r), p) || Parse(d, r).Ignored?
    ensures r.minor != own ==> !IdentityOf(Parse(d, r), p)
    ensures Parse(d, r).GroupRecord? ==> Parse(d, r).principal != p
  {
    var rec := Parse(d, r);
    if rec.UserRecord? {
      UserNames(p, own, name, r.minor, d.user(r.value).value.name);
    } else if rec.AccountRecord? {
      AccountNames(p, own, name, r.minor, d.account(r.value).value.name);
    } else if rec.GroupRecord? {
      IdentitiesApart(name, d.group(r.value).value.name);
    }
    OwnKind(own, name);
  }

  lemma OwnKind(own: string, name: string)
    ensures own == "user/" + name ==> KindOf(own) == UserKind
    ensures own == "sa/" + name ==> KindOf(own) == AccountKind
  {
    if own == "sa/" + name {
      assert own[0] == 's' && own[..3] == "sa/";
    }
    if own == "user/" + name {
      assert own[..5] == "user/";
    }
  }

  lemma UserNames(p: Principal, own: string, name: string, minor: string, n: string)
    requires OwnRecord(p, own, name) && minor == "user/" + n
    ensures UserPrincipal(n) == p <==> minor == own
  {
    IdentitiesApart(n, name);
    assert minor[0] == 'u';
    assert own == "sa/" + name ==> own[0] == 's';
    if UserPrincipal(n) == p {
      SuffixEqual("user:", n, name);
    } else if minor == own {
      SuffixEqual("user/", n, name);
    }
  }

  lemma AccountNames(p: Principal, own: string, name: string, minor: string, n: string)
    requires OwnRecord(p, own, name) && minor == "sa/" + n
    ensures AccountPrincipal(n) == p <==> minor == own
  {
    IdentitiesApart(name, n);
    assert minor[0] == 's';
    assert own == "user/" + name ==> own[0] == 'u';
    if AccountPrincipal(n) == p {
      SuffixEqual("serviceAccount:", n, name);
    } else if minor == own {
      SuffixEqual("sa/", n, name);
    }
  }

  lemma StillNamed(d: Decoders, x: IndexCodec, p: Principal, r: Raw)
    requires NamedAsStored(d, r)
    ensures NamedAsStored(d, Raw(r.minor, PlanFor(d, x, p).NewValue(ActionOf(d, x, p, r), r.value)))
  {
    Prefixes(r.minor);
  }

  /** What became of one record of the region. */
  lemma RecordCleared(d: Decoders, x: IndexCodec, p: Principal, own: string, name: string,
                      before: Store, after: Store, afterScan: seq<Raw>, r: Raw)
    requires Lossless(d, x) && OwnRecord(p, own, name) && NamedAsStored(d, r)
    requires PlanFor(d, x, p).Purged(before - {own}, after) && Scans(afterScan, after)
    requires r.minor in before && before[r.minor] == r.value
    ensures var rec := Parse(d, r);
            IdentityOf(rec, p) || rec.Ignored? || StripRecord(rec, p) in Parsed(d, afterScan)
  {
    OwnIdentity(d, p, own, name, r);
    RecordPurged(d, x, p, r);
    var a := ActionOf(d, x, p, r);
    if r.minor != own && a != Drop {
      assert Lookup(after, r.minor) == PlanFor(d, x, p).After(before - {own}, r.minor);
      var j :| 0 <= j < |afterScan| && afterScan[j] == Raw(r.minor, after[r.minor]);
      assert Parsed(d, afterScan)[j] == StripRecord(Parse(d, r), p);
    }
  }

  /** Where one record of the purged region came from. */
  lemma RecordSource(d: Decoders, x: IndexCodec, p: Principal, own: string, name: string,
                     before: Store, raws: seq<Raw>, after: Store, s: Raw) returns (i: nat)
    requires Lossless(d, x) && OwnRecord(p, own, name) && AllNamed(d, raws)
    requires PlanFor(d, x, p).Purged(before - {own}, after) && Scans(raws, before)
    requires s.minor in after && after[s.minor] == s.value
    ensures i < |raws| && Strips(Parse(d, raws[i]), Parse(d, s), p)
    ensures NamedAsStored(d, s)
  {
    var m := s.minor;
    assert Lookup(after, m) == PlanFor(d, x, p).After(before - {own}, m);
    var r := Raw(m, before[m]);
    i :| 0 <= i < |raws| && raws[i] == r;
    OwnIdentity(d, p, own, name, r);
    RecordPurged(d, x, p, r);
    StillNamed(d, x, p, r);
  }

  lemma ClearedByDeletion(d: Decoders, x: IndexCodec, p: Principal, own: string, name: string,
                          before: Store, raws: seq<Raw>, after: Store, afterScan: seq<Raw>)
    requires Lossless(d, x) && OwnRecord(p, own, name) && AllNamed(d, raws) && Scans(raws, before)
    requires PlanFor(d, x, p).Purged(before - {own}, after) && Scans(afterScan, after)
    ensures Cleared(Parsed(d, raws), Parsed(d, afterScan), p) && NotAGroup(Parsed(d, raws), p)
    ensures AllNamed(d, afterScan)
  {
    var rs, ts := Parsed(d, raws), Parsed(d, afterScan);
    forall i | 0 <= i < |rs|
      ensures IdentityOf(rs[i], p) || rs[i].Ignored? || StripRecord(rs[i], p) in ts
      ensures rs[i].GroupRecord? ==> rs[i].principal != p
    {
      RecordCleared(d, x, p, own, name, before, after, afterScan, raws[i]);
      OwnIdentity(d, p, own, name, raws[i]);
    }
    forall j | 0 <= j < |ts| ensures HasSource(rs, ts[j], p) {
      var i := RecordSource(d, x, p, own, name, before, raws, after, afterScan[j]);
      assert Strips(rs[i], ts[j], p);
    }
    forall j | 0 <= j < |ts| ensures NamedAsStored(d, afterScan[j]) {
      var _ := RecordSource(d, x, p, own, name, before, raws, after, afterScan[j]);
    }
  }

  /** Deleting a user or service account: its record is removed and purgePrincipal runs over the
      rest. The snapshot compiled afterwards denies it everything, and every other principal's
      decisions are what they were. */
  lemma DeletionComplete(d: Decoders, x: IndexCodec, predefined: RoleTable, p: Principal, own: string, name: string,
                         before: Store, raws: seq<Raw>, after: Store, afterScan: seq<Raw>,
                         q: Principal, permission: string, scopes: seq<string>)
    requires Lossless(d, x) && OwnRecord(p, own, name) && WellFormed(d, raws) && Scans(raws, before)
    requires PlanFor(d, x, p).Purged(before - {own}, after) && Scans(afterScan, after) && EachOnce(afterScan)
    ensures !Grants(Compile(predefined, Parsed(d, afterScan)), p, permission, scopes)
    ensures q != p ==> (Grants(Compile(predefined, Parsed(d, afterScan)), q, permission, scopes)
                        <==> Grants(Compile(predefined, Parsed(d, raws)), q, permission, scopes))
  {
    var rs, ts := Parsed(d, raws), Parsed(d, afterScan);
    ClearedByDeletion(d, x, p, own, name, before, raws, after, afterScan);
    ParsedUnique(d, raws);
    ParsedUnique(d, afterScan);
    CompiledIsDeclared(predefined, ts, p, permission, scopes);
    DeletedIsDenied(predefined, rs, ts, p, permission, scopes);
    if q != p {
      CompiledIsDeclared(predefined, rs, q, permission, scopes);
      CompiledIsDeclared(predefined, ts, q, permission, scopes);
      OthersUnaffected(predefined, rs, ts, p, q, permission, scopes);
    }
  }

  /** No credential of the deleted principal is left, and every other one is. */
  lemma CredentialsRevoked(d: Decoders, x: IndexCodec, p: Principal, before: Store, after: Store, minor: string)
    requires PlanFor(d, x, p).Purged(before, after) && minor in before && before[minor] != []
    ensures "token/" <= minor ==> (minor in after <==> x.token(before[minor]) != Some(p)) && (minor in after ==>
      after[minor] == before[minor])
    ensures "cert/" <= minor ==> (minor in after <==> x.cert(before[minor]) != Some(p)) && (minor in after ==>
      after[minor] == before[minor])
  {
    assert Lookup(after, minor) == PlanFor(d, x, p).After(before, minor);
    if minor != "" {
      assert ("token/" <= minor ==> minor[0] == 't') && ("cert/" <= minor ==> minor[0] == 'c');
    }
  }

  // ----- Nothing else is touched ---------------------------------------------------------------------------------

  predicate IsPolicyKey(minor: string) {
    minor == "policy/i" || "policy/t/" <= minor || "policy/r/" <= minor
  }

  /** A credential of p: a token or certificate index that decodes to it. */
  predicate CredentialOf(x: IndexCodec, p: Principal, minor: string, value: ByteSeq) {
    || ("token/" <= minor && x.token(value) == Some(p))
    || ("cert/" <= minor && x.cert(value) == Some(p))
  }

  predicate GroupWith(d: Decoders, p: Principal, minor: string, value: ByteSeq) {
    "group/" <= minor && d.group(value).Some? && p in d.group(value).value.members
  }

  predicate PolicyWith(d: Decoders, p: Principal, minor: string, value: ByteSeq) {
    && IsPolicyKey(minor) && d.policy(value).Some?
    && exists i :: 0 <= i < |d.policy(value).value.bindings| && p in d.policy(value).value.bindings[i].members
  }

  lemma KeysApart(minor: string)
    ensures IsPolicyKey(minor) <==> PolicyScopeKey(minor).Some?
    ensures "token/" <= minor ==> !("cert/" <= minor) && !("group/" <= minor) && !IsPolicyKey(minor)
    ensures "cert/" <= minor ==> !("group/" <= minor) && !IsPolicyKey(minor)
    ensures "group/" <= minor ==> !IsPolicyKey(minor)
  {
    if minor != "" {
      var c := minor[0];
      assert ("token/" <= minor ==> c == 't') && ("cert/" <= minor ==> c == 'c') && ("group/" <= minor ==> c == 'g');
      assert IsPolicyKey(minor) ==> c == 'p';
    }
  }

  /** Record by record: p's credentials go, groups and policies that name p are written again
      without it, and every other record of the region, of whatever kind, is as it was. */
  lemma PurgeExact(d: Decoders, x: IndexCodec, p: Principal, before: Store, after: Store, m: string)
    requires PlanFor(d, x, p).Purged(before, after)
    ensures m !in before ==> m !in after
    ensures m in before && before[m] == [] ==> Lookup(after, m) == Lookup(before, m)
    ensures m in before && before[m] != [] ==>
              var value := before[m];
              && (CredentialOf(x, p, m, value) ==> m !in after)
              && (GroupWith(d, p, m, value) ==>
                    var g := d.group(value).value;
                    Lookup(after, m) == Some(x.encodeGroup(Group(g.name, Without(g.members, p)))))
              && (PolicyWith(d, p, m, value) ==>
                    Lookup(after, m) == Some(x.encodePolicy(Policy(StripBindings(d.policy(value).value.bindings, p)))))
              && (!CredentialOf(x, p, m, value) && !GroupWith(d, p, m, value) && !PolicyWith(d, p, m, value) ==>
                    Lookup(after, m) == Lookup(before, m))
  {
    var plan := PlanFor(d, x, p);
    assert Lookup(after, m) == plan.After(before, m);
    KeysApart(m);
    if m in before {
      var a := ActionOf(d, x, p, Raw(m, before[m]));
      assert plan.For(before, m) == a;
      if a.NewGroup? {
        assert plan.NewValue(a, before[m]) == x.encodeGroup(StripGroup(a.group, p));
      } else if a.NewPolicy? {
        assert plan.NewValue(a, before[m]) == x.encodePolicy(StripPolicy(a.policy, p));
      }
    }
  }

  /** Taking p out works member by member and keeps the order. */
  lemma {:induction false} WithoutInOrder(a: seq<Principal>, b: seq<Principal>, p: Principal)
    ensures Without(a + b, p) == Without(a, p) + Without(b, p)
  {
    if b == [] {
      assert a + b == a;
    } else {
      WithoutInOrder(a, b[..|b| - 1], p);
      assert (a + b)[..|a + b| - 1] == a + b[..|b| - 1];
    }
  }

  lemma WithoutOne(q: Principal, p: Principal)
    ensures Without([q], p) == if q == p then [] else [q]
  {
    assert [q][..0] == [];
  }

  /** So it does binding by binding. */
  lemma {:induction false} StripInOrder(a: seq<Binding>, b: seq<Binding>, p: Principal)
    ensures StripBindings(a + b, p) == StripBindings(a, p) + StripBindings(b, p)
  {
    if b == [] {
      assert a + b == a;
    } else {
      StripInOrder(a, b[..|b| - 1], p);
      assert (a + b)[..|a + b| - 1] == a + b[..|b| - 1];
    }
  }

  /** A binding keeps its role and its other members, and goes when it has none. */
  lemma StripOne(c: Binding, p: Principal)
    ensures StripBindings([c], p)
            == if forall m :: m in c.members ==> m == p then [] else [Binding(c.role, Without(c.members, p))]
  {
    assert [c][..0] == [];
    var kept := Without(c.members, p);
    assert kept != [] ==> kept[0] in c.members;
    if m :| m in c.members && m != p {
      assert m in kept;
    }
  }
}
