/** The authorization model: pkg/iam/policy.go, and the compilation of IAM records into a
    snapshot in pkg/server/policy_service.go. */
module Iam {
  import opened Bytes

  type Principal = string

  datatype Binding = Binding(role: string, members: seq<Principal>)

  datatype User = User(name: string, admin: bool, disabled: bool)
  datatype ServiceAccount = ServiceAccount(name: string, disabled: bool)
  datatype Group = Group(name: string, members: seq<Principal>)
  datatype Role = Role(name: string, permissions: seq<string>)
  datatype Policy = Policy(bindings: seq<Binding>)

  // ----- Records of the IAM region -------------------------------------------------------------------

  /** One stored record, by its minor key. */
  datatype Raw = Raw(minor: string, value: ByteSeq)

  /** A record as the compiler understands it, users, service accounts and groups by their
      principal. */
  datatype Record =
    | UserRecord(principal: Principal, admin: bool, disabled: bool)
    | AccountRecord(principal: Principal, disabled: bool)
    | GroupRecord(principal: Principal, members: seq<Principal>)
    | RoleRecord(name: string, permissions: seq<string>)
    | PolicyRecord(scope: string, bindings: seq<Binding>)
    | Ignored

  /** iam.Decode at each record type. */
  datatype Decoders = Decoders(user: ByteSeq -> Option<User>, account: ByteSeq -> Option<ServiceAccount>,
                               group: ByteSeq -> Option<Group>, role: ByteSeq -> Option<Role>,
                                   policy: ByteSeq -> Option<Policy>)

  function UserPrincipal(name: string): Principal { "user:" + name }

  function AccountPrincipal(name: string): Principal { "serviceAccount:" + name }

  function GroupPrincipal(name: string): Principal { "group:" + name }

  /** What a minor key addresses. */
  datatype Kind = UserKind | AccountKind | GroupKind | RoleKind | PolicyKind(scope: string) | OtherKind

  function PolicyScopeKey(minor: string): Option<string> {
    if minor == "policy/i" then Some("i")
    else if "policy/t/" <= minor then Some("t/" + minor[9..])
    else if "policy/r/" <= minor then Some("r/" + minor[9..])
    else None
  }

  function KindOf(minor: string): Kind {
    if "user/" <= minor then UserKind
    else if "sa/" <= minor then AccountKind
    else if "group/" <= minor then GroupKind
    else if "role/" <= minor then RoleKind
    else match PolicyScopeKey(minor)
      case Some(scope) => PolicyKind(scope)
      case None => OtherKind
  }

  function Parse(d: Decoders, r: Raw): Record {
    if r.value == [] then Ignored
    else match KindOf(r.minor)
      case UserKind =>
        (match d.user(r.value)
         case Some(u) => UserRecord(UserPrincipal(u.name), u.admin, u.disabled)
         case None => Ignored)
      case AccountKind =>
        (match d.account(r.value)
         case Some(a) => AccountRecord(AccountPrincipal(a.name), a.disabled)
         case None => Ignored)
      case GroupKind =>
        (match d.group(r.value)
         case Some(g) => GroupRecord(GroupPrincipal(g.name), g.members)
         case None => Ignored)
      case RoleKind =>
        (match d.role(r.value)
         case Some(x) => RoleRecord(x.name, x.permissions)
         case None => Ignored)
      case PolicyKind(scope) =>
        (match d.policy(r.value)
         case Some(p) => PolicyRecord(scope, p.bindings)
         case None => Ignored)
      case OtherKind => Ignored
  }

  // ----- The compiled snapshot ---------------------------------------------------------------------------

  type RoleTable = map<string, seq<string>>

  datatype Snapshot = Snapshot(admins: map<Principal, bool>, disabled: map<Principal, bool>,
                               memberGroups: map<Principal, seq<Principal>>, roles: RoleTable,
                               policies: map<string, seq<Binding>>)

  function NewSnapshot(predefined: RoleTable): Snapshot {
    Snapshot(map[], map[], map[], predefined, map[])
  }

  function AddMembers(groups: map<Principal, seq<Principal>>, members: seq<Principal>,
                      group: Principal): map<Principal, seq<Principal>> {
    if members == [] then groups
    else
      var before := AddMembers(groups, members[..|members| - 1], group);
      var m := members[|members| - 1];
      before[m := (if m in before then before[m] else []) + [group]]
  }

  function Add(snap: Snapshot, r: Record): Snapshot {
    match r
    case UserRecord(p, admin, disabled) => snap.(admins := snap.admins[p := admin],
        disabled := snap.disabled[p := disabled])
    case AccountRecord(p, disabled) => snap.(disabled := snap.disabled[p := disabled])
    case GroupRecord(p, members) => snap.(memberGroups := AddMembers(snap.memberGroups, members, p))
    case RoleRecord(name, permissions) =>
      if name in snap.roles then snap else snap.(roles := snap.roles[name := permissions])
    case PolicyRecord(scope, bindings) => snap.(policies := snap.policies[scope := bindings])
    case Ignored => snap
  }

  function Compile(predefined: RoleTable, records: seq<Record>): Snapshot {
    if records == [] then NewSnapshot(predefined)
    else Add(Compile(predefined, records[..|records| - 1]), records[|records| - 1])
  }

  function Parsed(d: Decoders, raws: seq<Raw>): (records: seq<Record>)
    ensures |records| == |raws| && forall i :: 0 <= i < |raws| ==> records[i] == Parse(d, raws[i])
  {
    seq(|raws|, i requires 0 <= i < |raws| => Parse(d, raws[i]))
  }

  /** The inner loop of rebuild: the group noted under each of its members. */
  method IndexMembers(groups: map<Principal, seq<Principal>>, members: seq<Principal>, group: Principal)
    returns (indexed: map<Principal, seq<Principal>>)
    ensures indexed == AddMembers(groups, members, group)
  {
    indexed := groups;
    for j := 0 to |members|
      invariant indexed == AddMembers(groups, members[..j], group)
    {
      assert members[..j + 1][..j] == members[..j];
      var m := members[j];
      indexed := indexed[m := (if m in indexed then indexed[m] else []) + [group]];
    }
    assert members[..|members|] == members;
  }

  /** The switch of rebuild on one scanned record. */
  method AddRecord(snap: Snapshot, r: Record) returns (next: Snapshot)
    ensures next == Add(snap, r)
  {
    next := snap;
    match r {
      case UserRecord(p, admin, disabled) =>
        next := next.(admins := next.admins[p := admin]);
        next := next.(disabled := next.disabled[p := disabled]);
      case AccountRecord(p, disabled) =>
        next := next.(disabled := next.disabled[p := disabled]);
      case GroupRecord(p, members) =>
        var groups := IndexMembers(next.memberGroups, members, p);
        next := next.(memberGroups := groups);
      case RoleRecord(name, permissions) =>
        if name !in next.roles {
          next := next.(roles := next.roles[name := permissions]);
        }
      case PolicyRecord(scope, bindings) =>
        next := next.(policies := next.policies[scope := bindings]);
      case Ignored =>
    }
  }

  /** The loop of rebuild over the scanned records. */
  method Rebuild(d: Decoders, predefined: RoleTable, raws: seq<Raw>) returns (snap: Snapshot)
    ensures snap == Compile(predefined, Parsed(d, raws))
  {
    ghost var records := Parsed(d, raws);
    snap := NewSnapshot(predefined);
    for i := 0 to |raws|
      invariant snap == Compile(predefined, records[..i])
    {
      assert records[..i + 1][..i] == records[..i];
      snap := AddRecord(snap, Parse(d, raws[i]));
    }
    assert records[..|raws|] == records;
  }

  const SYSTEM_TENANT := "__system"
  const IAM_GET := "cdb.iam.get"
  const IAM_SET := "cdb.iam.set"

  /** The record permissions that only look. */
  predicate Reads(permission: string) {
    permission == "cdb.records.get" || permission == "cdb.records.enumerate" || permission == "cdb.records.watch"
  }

  /** On the system tenant every operation needs an IAM permission instead. */
  function EffectivePermission(permission: string, tenant: string): string {
    if tenant != SYSTEM_TENANT then permission
    else if Reads(permission) then IAM_GET
    else IAM_SET
  }

  // ----- Evaluation ------------------------------------------------------------------------------------------

  function RegionScope(tenant: string, region: string): string { "r/" + tenant + "/" + region }

  function TenantScope(tenant: string): string { "t/" + tenant }

  function InstanceScope(): string { "i" }

  /** The scopes whose bindings apply, widest last. */
  function Scopes(tenant: string, region: string): seq<string> {
    (if tenant != "" && region != "" then [RegionScope(tenant, region)] else [])
    + (if tenant != "" then [TenantScope(tenant)] else [])
    + [InstanceScope()]
  }

  predicate Holds(flags: map<Principal, bool>, p: Principal) {
    p in flags && flags[p]
  }

  function GroupsOf(snap: Snapshot, p: Principal): seq<Principal> {
    if p in snap.memberGroups then snap.memberGroups[p] else []
  }

  function BindingsAt(snap: Snapshot, scope: string): seq<Binding> {
    if scope in snap.policies then snap.policies[scope] else []
  }

  predicate RoleHas(snap: Snapshot, role: string, permission: string) {
    role in snap.roles && permission in snap.roles[role]
  }

  predicate Binds(snap: Snapshot, principal: Principal, permission: string, b: Binding) {
    && (exists i :: 0 <= i < |b.members| && (b.members[i] == principal || b.members[i] in GroupsOf(snap, principal)))
    && RoleHas(snap, b.role, permission)
  }

  ghost predicate ScopeGrants(snap: Snapshot, principal: Principal, permission: string, scope: string) {
    exists i :: 0 <= i < |BindingsAt(snap, scope)| && Binds(snap, principal, permission, BindingsAt(snap, scope)[i])
  }

  /** What a snapshot grants. */
  ghost predicate Grants(snap: Snapshot, principal: Principal, permission: string, scopes: seq<string>) {
    && principal != "" && !Holds(snap.disabled, principal)
    && (Holds(snap.admins, principal)
        || exists i :: 0 <= i < |scopes| && ScopeGrants(snap, principal, permission, scopes[i]))
  }

  method MatchBinding(snap: Snapshot, members: set<Principal>, principal: Principal, permission: string,
                      b: Binding) returns (ok: bool)
    requires forall m :: m in members <==> m == principal || m in GroupsOf(snap, principal)
    ensures ok <==> Binds(snap, principal, permission, b)
  {
    var granted := false;
    for i := 0 to |b.members|
      invariant !granted && forall j :: 0 <= j < i ==> b.members[j] !in members
    {
      if b.members[i] in members {
        granted := true;
        break;
      }
    }
    if !granted {
      return false;
    }
    var permissions := if b.role in snap.roles then snap.roles[b.role] else [];
    for i := 0 to |permissions|
      invariant forall j :: 0 <= j < i ==> permissions[j] != permission
    {
      if permissions[i] == permission {
        return true;
      }
    }
    return false;
  }

  method MatchScope(snap: Snapshot, members: set<Principal>, principal: Principal, permission: string,
                    scope: string) returns (ok: bool)
    requires forall m :: m in members <==> m == principal || m in GroupsOf(snap, principal)
    ensures ok <==> ScopeGrants(snap, principal, permission, scope)
  {
    var bindings := BindingsAt(snap, scope);
    for i := 0 to |bindings|
      invariant forall j :: 0 <= j < i ==> !Binds(snap, principal, permission, bindings[j])
    {
      ok := MatchBinding(snap, members, principal, permission, bindings[i]);
      if ok {
        return true;
      }
    }
    return false;
  }

  method Authorize(snap: Snapshot, principal: Principal, permission: string, tenant: string,
                   region: string) returns (ok: bool)
    ensures ok <==> Grants(snap, principal, permission, Scopes(tenant, region))
  {
    if principal == "" || Holds(snap.disabled, principal) {
      return false;
    }
    if Holds(snap.admins, principal) {
      return true;
    }
    var members: set<Principal> := {principal};
    var groups := GroupsOf(snap, principal);
    for i := 0 to |groups|
      invariant forall m :: m in members <==> m == principal || m in groups[..i]
    {
      members := members + {groups[i]};
    }
    assert groups[..|groups|] == groups;
    var scopes := Scopes(tenant, region);
    for i := 0 to |scopes|
      invariant forall j :: 0 <= j < i ==> !ScopeGrants(snap, principal, permission, scopes[j])
    {
      ok := MatchScope(snap, members, principal, permission, scopes[i]);
      if ok {
        return true;
      }
    }
    return false;
  }
}
