/** Deleting a principal: purgePrincipal in pkg/console/iam.go. */
module Purge {
  import opened Bytes
  import opened Iam

  /** Decoding of the token and certificate indexes, by the principal they name, and encoding of
      the records purging rewrites. */
  datatype IndexCodec = IndexCodec(token: ByteSeq -> Option<Principal>, cert: ByteSeq -> Option<Principal>,
                                   encodeGroup: Group -> ByteSeq, encodePolicy: Policy -> ByteSeq)

  /** The list without a value, order kept. */
  function Without(list: seq<Principal>, p: Principal): (r: seq<Principal>)
    ensures forall m :: m in r <==> m in list && m != p
  {
    if list == [] then []
    else
      var init, last := Without(list[..|list| - 1], p), list[|list| - 1];
      assert forall m :: m in list <==> m in list[..|list| - 1] || m == last;
      if last == p then init else init + [last]
  }

  method RemoveFrom(list: seq<Principal>, p: Principal) returns (out: seq<Principal>)
    ensures out == Without(list, p)
  {
    out := [];
    for i := 0 to |list|
      invariant out == Without(list[..i], p)
    {
      assert list[..i + 1][..i] == list[..i];
      if list[i] != p {
        out := out + [list[i]];
      }
    }
    assert list[..|list|] == list;
  }

  function StripBinding(b: Binding, p: Principal): Binding {
    Binding(b.role, Without(b.members, p))
  }

  /** The bindings with p taken out, and those dropped that have no member left. */
  function StripBindings(bs: seq<Binding>, p: Principal): seq<Binding> {
    if bs == [] then []
    else
      var init, b := StripBindings(bs[..|bs| - 1], p), StripBinding(bs[|bs| - 1], p);
      if b.members == [] then init else init + [b]
  }

  /** Filters the bindings within their own array. */
  method FilterBindings(bs: array<Binding>, p: Principal) returns (kept: nat)
    modifies bs
    ensures kept <= bs.Length && bs[..kept] == StripBindings(old(bs[..]), p)
  {
    kept := 0;
    for i := 0 to bs.Length
      invariant kept <= i
      invariant bs[..kept] == StripBindings(old(bs[..])[..i], p)
      invariant forall j :: i <= j < bs.Length ==> bs[j] == old(bs[j])
    {
      assert old(bs[..])[..i + 1][..i] == old(bs[..])[..i];
      var members := RemoveFrom(bs[i].members, p);
      var b := Binding(bs[i].role, members);
      if |members| > 0 {
        bs[kept] := b;
        kept := kept + 1;
      }
    }
    assert old(bs[..])[..bs.Length] == old(bs[..]);
  }

  method Strip(bindings: seq<Binding>, p: Principal) returns (kept: seq<Binding>)
    ensures kept == StripBindings(bindings, p)
  {
    var a := new Binding[|bindings|](i requires 0 <= i < |bindings| => bindings[i]);
    assert a[..] == bindings;
    var n := FilterBindings(a, p);
    kept := a[..n];
  }

  predicate Names(bs: seq<Binding>, p: Principal) {
    exists i :: 0 <= i < |bs| && p in bs[i].members
  }

  // ----- What happens to one record -----------------------------------------------------------------

  datatype Action = Keep | Drop | NewGroup(group: Group) | NewPolicy(policy: Policy)

  function ActionOf(d: Decoders, x: IndexCodec, p: Principal, r: Raw): Action {
    if r.value == [] then Keep
    else if "token/" <= r.minor then if x.token(r.value) == Some(p) then Drop else Keep
    else if "cert/" <= r.minor then if x.cert(r.value) == Some(p) then Drop else Keep
    else if "group/" <= r.minor then
      match d.group(r.value)
      case Some(g) => if p in g.members then NewGroup(g) else Keep
      case None => Keep
    else if PolicyScopeKey(r.minor).Some? then
      match d.policy(r.value)
      case Some(pol) => if Names(pol.bindings, p) then NewPolicy(pol) else Keep
      case None => Keep
    else Keep
  }

  function StripGroup(g: Group, p: Principal): Group {
    Group(g.name, Without(g.members, p))
  }

  function StripPolicy(policy: Policy, p: Principal): Policy {
    Policy(StripBindings(policy.bindings, p))
  }

  type Store = map<string, ByteSeq>

  function Lookup(store: Store, minor: string): Option<ByteSeq> {
    if minor in store then Some(store[minor]) else None
  }

  /** What purging does to each record, and the encodings of the records it rewrites. */
  datatype Plan = Plan(action: Raw -> Action, group: Group -> ByteSeq, policy: Policy -> ByteSeq) {
    function For(store: Store, minor: string): Action
      requires minor in store
    {
      action(Raw(minor, store[minor]))
    }

    function NewValue(a: Action, value: ByteSeq): ByteSeq {
      match a
      case NewGroup(g) => group(g)
      case NewPolicy(pol) => policy(pol)
      case _ => value
    }

    /** A record after purging: its new value, or None when it is gone. */
    function After(store: Store, minor: string): Option<ByteSeq> {
      if minor !in store || For(store, minor) == Drop then None
      else Some(NewValue(For(store, minor), store[minor]))
    }

    ghost predicate Purged(store: Store, result: Store) {
      forall m :: Lookup(result, m) == After(store, m)
    }
  }

  function PlanFor(d: Decoders, x: IndexCodec, p: Principal): Plan {
    Plan(r => ActionOf(d, x, p, r), g => x.encodeGroup(StripGroup(g, p)), pol => x.encodePolicy(StripPolicy(pol, p)))
  }

  /** A scan lists the records, in some order. */
  ghost predicate Scans(raws: seq<Raw>, store: Store) {
    && (forall i :: 0 <= i < |raws| ==> raws[i].minor in store && store[raws[i].minor] == raws[i].value)
    && (forall m :: m in store ==> Raw(m, store[m]) in raws)
  }

  // ----- The region -----------------------------------------------------------------------------------

  class Region {
    var records: Store

    method RemoveAll(minors: seq<string>)
      modifies this
      ensures forall m :: Lookup(records, m) == if m in minors then None else Lookup(old(records), m)
    {
      for i := 0 to |minors|
        invariant forall m :: Lookup(records, m) == if m in minors[..i] then None else Lookup(old(records), m)
      {
        assert minors[..i + 1] == minors[..i] + [minors[i]];
        records := records - {minors[i]};
      }
      assert minors[..|minors|] == minors;
    }

    method RewriteGroups(x: IndexCodec, p: Principal, groups: map<string, Group>)
      modifies this
      ensures forall m :: Lookup(records, m) ==
                          if m in groups then Some(x.encodeGroup(StripGroup(groups[m], p))) else Lookup(old(records), m)
    {
      var todo := groups.Keys;
      while todo != {}
        invariant todo <= groups.Keys
        invariant forall m :: Lookup(records, m) ==
                              if m in groups && m !in todo then Some(x.encodeGroup(StripGroup(groups[m], p)))
                                  else Lookup(old(records), m)
        decreases |todo|
      {
        var minor :| minor in todo;
        var members := RemoveFrom(groups[minor].members, p);
        records := records[minor := x.encodeGroup(Group(groups[minor].name, members))];
        todo := todo - {minor};
      }
    }

    method RewritePolicies(x: IndexCodec, p: Principal, policies: map<string, Policy>)
      modifies this
      ensures forall m :: Lookup(records, m) ==
                          if m in policies then Some(x.encodePolicy(StripPolicy(policies[m], p)))
                              else Lookup(old(records), m)
    {
      var todo := policies.Keys;
      while todo != {}
        invariant todo <= policies.Keys
        invariant forall m :: Lookup(records, m) ==
                              if m in policies && m !in todo
                                  then Some(x.encodePolicy(StripPolicy(policies[m], p))) else Lookup(old(records), m)
        decreases |todo|
      {
        var minor :| minor in todo;
        var kept := Strip(policies[minor].bindings, p);
        records := records[minor := x.encodePolicy(Policy(kept))];
        todo := todo - {minor};
      }
    }

    /** Collects first, then changes the records. */
    method PurgePrincipal(d: Decoders, x: IndexCodec, p: Principal, scan: seq<Raw>)
      requires Scans(scan, records)
      modifies this
      ensures PlanFor(d, x, p).Purged(old(records), records)
    {
      var plan := PlanFor(d, x, p);
      var drops, groups, policies := Collect(plan, scan, records);
      RemoveAll(drops);
      ghost var removed := records;
      RewriteGroups(x, p, groups);
      ghost var regrouped := records;
      RewritePolicies(x, p, policies);
      AllNoted(plan, scan, old(records), drops, groups, policies);
      PurgedInSteps(plan, old(records), drops, groups, policies, removed, regrouped, records);
    }
  }

  /** Each list holds what the plan says of the records seen, and nothing else. */
  ghost predicate Collected(plan: Plan, store: Store, seen: seq<Raw>,
                            drops: seq<string>, groups: map<string, Group>, policies: map<string, Policy>) {
    && (forall m :: m in drops ==> m in store && plan.For(store, m) == Drop)
    && (forall m :: m in groups ==> m in store && plan.For(store, m) == NewGroup(groups[m]))
    && (forall m :: m in policies ==> m in store && plan.For(store, m) == NewPolicy(policies[m]))
    && (forall i :: 0 <= i < |seen| ==> Noted(plan.action(seen[i]), seen[i].minor, drops, groups, policies))
  }

  predicate Noted(a: Action, minor: string, drops: seq<string>, groups: map<string, Group>,
                  policies: map<string, Policy>) {
    match a
    case Keep => true
    case Drop => minor in drops
    case NewGroup(_) => minor in groups
    case NewPolicy(_) => minor in policies
  }

  lemma AllNoted(plan: Plan, scan: seq<Raw>, store: Store,
                 drops: seq<string>, groups: map<string, Group>, policies: map<string, Policy>)
    requires forall m :: m in store ==> Raw(m, store[m]) in scan
    requires Collected(plan, store, scan, drops, groups, policies)
    ensures forall m :: m in store ==> Noted(plan.For(store, m), m, drops, groups, policies)
  {
    forall m | m in store ensures Noted(plan.For(store, m), m, drops, groups, policies) {
      var i :| 0 <= i < |scan| && scan[i] == Raw(m, store[m]);
    }
  }

  lemma PurgedInSteps(plan: Plan, store: Store, drops: seq<string>, groups: map<string, Group>,
                      policies: map<string, Policy>,
                      removed: Store, regrouped: Store, result: Store)
    requires Collected(plan, store, [], drops, groups, policies)
    requires forall m :: m in store ==> Noted(plan.For(store, m), m, drops, groups, policies)
    requires forall m :: Lookup(removed, m) == if m in drops then None else Lookup(store, m)
    requires forall m :: Lookup(regrouped, m) == if m in groups then Some(plan.group(groups[m])) else Lookup(removed, m)
    requires forall m :: Lookup(result, m) == if m in policies then Some(plan.policy(policies[m]))
        else Lookup(regrouped, m)
    ensures plan.Purged(store, result)
  {
    forall m ensures Lookup(result, m) == plan.After(store, m) {
      assert Lookup(regrouped, m) == if m in groups then Some(plan.group(groups[m])) else Lookup(removed, m);
      assert Lookup(removed, m) == if m in drops then None else Lookup(store, m);
    }
  }

  /** The callback of the scan. */
  method Collect(plan: Plan, scan: seq<Raw>, ghost store: Store)
    returns (drops: seq<string>, groups: map<string, Group>, policies: map<string, Policy>)
    requires Scans(scan, store)
    ensures Collected(plan, store, scan, drops, groups, policies)
  {
    drops, groups, policies := [], map[], map[];
    for i := 0 to |scan|
      invariant Collected(plan, store, scan[..i], drops, groups, policies)
    {
      assert scan[..i + 1] == scan[..i] + [scan[i]];
      var r := scan[i];
      match plan.action(r) {
        case Keep =>
        case Drop =>
          drops := drops + [r.minor];
        case NewGroup(g) =>
          groups := groups[r.minor := g];
        case NewPolicy(pol) =>
          policies := policies[r.minor := pol];
      }
    }
    assert scan[..|scan|] == scan;
  }
}
