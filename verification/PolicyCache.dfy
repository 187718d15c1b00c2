/** The policy snapshot and its dirty flag: pkg/server/policy_service.go, as the steps that writers,
    the watch callback and concurrent Authorize calls take.

    IAM records are known by their version: version v is the region after v changes, each a committed
    write or a restore. */
module PolicyCache {
  import opened Bytes
  import opened Iam
  import opened IamLaws
  import opened StoredAccess

  /** Where a thread is in Authorize and rebuild. The lock is held in Holding and Scanned. */
  datatype Phase = Idle | Waiting | Holding | Scanned(version: nat) | Failing

  /** The thread that runs the first rebuild, before the watch is set up. */
  const BOOT: nat := 0

  /** cur changes are made and published of them are behind the hub; queue events wait for the
      watcher. Nobody was told of the change to version lost: its event went out before the watch
      was set up, or it was a restore, which has no event. covered says that at that restore a
      rebuild that had yet to scan was flagged, owed or on its way. booted is the version the
      first rebuild installed. */
  datatype Cache = Cache(cur: nat, published: nat, subscribed: bool, lost: nat, covered: bool, queue: nat,
                         dirty: bool, lock: Option<nat>, snap: Option<nat>, booted: Option<nat>,
                         threads: map<nat, Phase>)

  datatype Step =
    | Commit | Publish | Restore | Subscribe | Deliver
    | Swap(t: nat) | Acquire(t: nat) | Scan(t: nat) | ScanFails(t: nat) | Install(t: nat) | MarkAgain(t: nat)

  function At(c: Cache, t: nat): Phase {
    if t in c.threads then c.threads[t] else Idle
  }

  function Move(c: Cache, t: nat, phase: Phase): Cache {
    c.(threads := c.threads[t := phase])
  }

  const START: Cache := Cache(0, 0, false, 0, false, 0, false, None, None, None, map[BOOT := Waiting])

  /** The thread has taken on a rebuild and has yet to scan for it. */
  predicate ToScan(phase: Phase) {
    phase.Waiting? || phase.Holding? || phase.Failing?
  }

  /** Some rebuild will scan from here on, whatever else happens. */
  predicate Pending(c: Cache) {
    c.dirty || c.queue > 0 || exists t :: t in c.threads && ToScan(c.threads[t])
  }

  /** One step; a step that is not enabled leaves everything as it is. */
  function Next(c: Cache, s: Step): Cache {
    match s
    case Commit => c.(cur := c.cur + 1)
    case Publish =>
      if c.published == c.cur then c
      else if c.subscribed then c.(published := c.published + 1, queue := c.queue + 1)
      else c.(published := c.published + 1)
    case Restore =>
      // Restore runs in the apply loop, so no write is between its commit and its event.
      if c.published != c.cur then c
      else
        var d := c.(cur := c.cur + 1, published := c.published + 1);
        if c.subscribed then d.(lost := c.cur + 1, covered := Pending(c)) else d
    case Subscribe =>
      if c.subscribed || c.booted.None? then c else c.(subscribed := true, lost := c.published)
    case Deliver =>
      if c.queue == 0 then c else c.(queue := c.queue - 1, dirty := true)
    case Swap(t) =>
      if t == BOOT || At(c, t) != Idle || !c.dirty then c else Move(c, t, Waiting).(dirty := false)
    case Acquire(t) =>
      if At(c, t) != Waiting || c.lock.Some? then c else Move(c, t, Holding).(lock := Some(t))
    case Scan(t) =>
      if At(c, t) != Holding then c else Move(c, t, Scanned(c.cur))
    case ScanFails(t) =>
      if At(c, t) != Holding then c else Move(c, t, if t == BOOT then Idle else Failing).(lock := None)
    case Install(t) =>
      (match At(c, t)
       case Scanned(v) =>
         Move(c, t, Idle).(lock := None, snap := Some(v), booted := if t == BOOT then Some(v) else c.booted)
       case _ => c)
    case MarkAgain(t) =>
      if At(c, t) != Failing then c else Move(c, t, Idle).(dirty := true)
  }

  function After(steps: seq<Step>): Cache {
    if steps == [] then START else Next(After(steps[..|steps| - 1]), steps[|steps| - 1])
  }

  // ----- Invariants ---------------------------------------------------------------------------------

  /** The latest version whose event, or whose loss, is behind us. */
  function Delivered(c: Cache): int {
    c.published - c.queue
  }

  /** The lock serialises scanning and installing, so installed versions only grow. */
  ghost predicate Serialised(c: Cache) {
    && (forall t: nat :: (At(c, t).Holding? || At(c, t).Scanned?) <==> c.lock == Some(t))
    && (forall t :: At(c, t).Scanned? ==> At(c, t).version <= c.cur && (c.snap.Some? ==>
      c.snap.value <= At(c, t).version))
    && (c.snap.Some? ==> c.snap.value <= c.cur)
    && (c.booted.Some? ==> c.booted.value <= c.cur && c.snap.Some?)
  }

  ghost predicate Counted(c: Cache) {
    && c.published <= c.cur && c.lost <= c.published && c.queue <= c.published
    && (!c.subscribed ==> c.queue == 0 && c.lost == 0 && !c.covered)
    && (c.subscribed ==> c.booted.Some?)
    && (c.booted.Some? ==> At(c, BOOT).Idle?) && !At(c, BOOT).Failing?
  }

  /** The thread is bound to install, or to cause, a rebuild at least as new as version v. */
  predicate Owes(c: Cache, t: nat, v: int) {
    match At(c, t)
    case Idle => false
    case Scanned(w) => w >= v
    case _ => true
  }

  /** Version v is in the snapshot, or a rebuild that will see it is flagged or owed. */
  ghost predicate Accounted(c: Cache, v: int) {
    || c.dirty
    || (c.snap.Some? && c.snap.value >= v)
    || (exists t :: Owes(c, t, v))
  }

  /** Since the watch was set up nothing has moved. */
  ghost predicate Untouched(c: Cache) {
    !c.dirty && c.snap == c.booted && forall t :: t != BOOT ==> At(c, t).Idle?
  }

  /** A restore nobody was told of: whatever is installed or on its way is older. */
  ghost predicate Outdated(c: Cache) {
    && !c.dirty && c.booted.Some? && c.booted.value < c.lost && c.snap.Some? && c.snap.value < c.lost
    && (forall t :: At(c, t).Idle? || (At(c, t).Scanned? && At(c, t).version < c.lost))
  }

  ghost predicate Sound(c: Cache) {
    && Serialised(c) && Counted(c)
    && (if !c.subscribed then Untouched(c)
        else if Delivered(c) > c.lost then Accounted(c, Delivered(c))
        else if c.covered then Delivered(c) < c.lost || Accounted(c, c.lost)
        else Delivered(c) == c.lost && (Untouched(c) || Outdated(c)))
  }

  lemma StepSerialised(c: Cache, s: Step)
    requires Serialised(c)
    ensures Serialised(Next(c, s))
  {
  }

  lemma StepCounted(c: Cache, s: Step)
    requires Counted(c)
    ensures Counted(Next(c, s))
  {
  }

  /** What is accounted for stays so, under every step but one that makes it newer. */
  lemma StepAccounted(c: Cache, s: Step, v: int)
    requires Serialised(c) && Counted(c) && c.subscribed && Accounted(c, v) && v <= c.cur
    ensures Accounted(Next(c, s), v)
  {
    var d := Next(c, s);
    if !c.dirty && !(c.snap.Some? && c.snap.value >= v) {
      var t :| Owes(c, t, v);
      assert Owes(d, t, v) || d.dirty || (d.snap.Some? && d.snap.value >= v);
    } else if s.Swap? && c.dirty {
      assert Owes(d, s.t, v) || d.dirty;
    }
  }

  /** A pending rebuild accounts for the restore: every scan from here on sees it. */
  lemma PendingAccounts(c: Cache)
    requires Serialised(c) && Counted(c) && c.subscribed && c.published == c.cur
    ensures var d := Next(c, Restore);
            if Pending(c) then Delivered(d) < d.lost || Accounted(d, d.lost)
            else Delivered(d) == d.lost && Outdated(d)
  {
    var d := Next(c, Restore);
    if Pending(c) && !c.dirty && c.queue == 0 {
      var t :| t in c.threads && ToScan(c.threads[t]);
      assert Owes(d, t, d.lost);
    } else if !Pending(c) {
      forall t: nat ensures At(d, t).Idle? || (At(d, t).Scanned? && At(d, t).version < d.lost) {
        assert t in c.threads ==> !ToScan(c.threads[t]);
        assert At(d, t) == At(c, t);
      }
    }
  }

  lemma StepSound(c: Cache, s: Step)
    requires Sound(c)
    ensures Sound(Next(c, s))
  {
    StepSerialised(c, s);
    StepCounted(c, s);
    if c.subscribed {
      if s.Restore? && c.published == c.cur {
        PendingAccounts(c);
      } else if Delivered(c) > c.lost {
        StepAccounted(c, s, Delivered(c));
      } else if c.covered && Accounted(c, c.lost) {
        StepAccounted(c, s, c.lost);
      }
    }
  }

  lemma {:induction false} AlwaysSound(steps: seq<Step>)
    ensures Sound(After(steps))
  {
    if steps != [] {
      AlwaysSound(steps[..|steps| - 1]);
      StepSound(After(steps[..|steps| - 1]), steps[|steps| - 1]);
    }
  }

  // ----- Coherence ---------------------------------------------------------------------------------------

  /** The watch is set up, every event is delivered, and no rebuild is flagged, owed or running. */
  ghost predicate Quiescent(c: Cache) {
    c.subscribed && c.published == c.cur && c.queue == 0 && !c.dirty && forall t :: At(c, t).Idle?
  }

  /** In every run, at rest, the snapshot is that of the current records exactly when an event was
      published after the last change nobody was told of, or that change was a restore with a
      rebuild pending, or nothing has changed since the first scan. */
  lemma CoherentExactly(steps: seq<Step>)
    requires Quiescent(After(steps))
    ensures var c := After(steps);
            c.snap == Some(c.cur) <==> c.cur > c.lost || c.covered || c.booted == Some(c.cur)
  {
    AlwaysSound(steps);
  }

  lemma AfterSnoc(steps: seq<Step>, s: Step)
    ensures After(steps + [s]) == Next(After(steps), s)
  {
    assert (steps + [s])[..|steps|] == steps;
  }

  const BOOTED: Cache :=
    Cache(0, 0, false, 0, false, 0, false, None, Some(0), Some(0), map[BOOT := Idle])

  lemma FirstRebuild() returns (steps: seq<Step>)
    ensures After(steps) == BOOTED
  {
    steps := [Acquire(BOOT), Scan(BOOT), Install(BOOT)];
    AfterSnoc([], Acquire(BOOT));
    AfterSnoc([Acquire(BOOT)], Scan(BOOT));
    AfterSnoc([Acquire(BOOT), Scan(BOOT)], Install(BOOT));
    assert [] + [Acquire(BOOT)] == [Acquire(BOOT)];
    assert [Acquire(BOOT)] + [Scan(BOOT)] == [Acquire(BOOT), Scan(BOOT)];
    assert [Acquire(BOOT), Scan(BOOT)] + [Install(BOOT)] == steps;
  }

  /** A write between the first scan and the watch stays unseen: the run that shows it. */
  lemma EarlyWriteMissed() returns (steps: seq<Step>)
    ensures Quiescent(After(steps)) && After(steps).snap == Some(0) && After(steps).cur == 1
  {
    var boot := FirstRebuild();
    AfterSnoc(boot, Commit);
    AfterSnoc(boot + [Commit], Publish);
    AfterSnoc(boot + [Commit] + [Publish], Subscribe);
    steps := boot + [Commit] + [Publish] + [Subscribe];
  }

  /** So does a restore into a node at rest. */
  lemma RestoreMissed() returns (steps: seq<Step>)
    ensures Quiescent(After(steps)) && After(steps).snap == Some(0) && After(steps).cur == 1
  {
    var boot := FirstRebuild();
    AfterSnoc(boot, Subscribe);
    AfterSnoc(boot + [Subscribe], Restore);
    steps := boot + [Subscribe] + [Restore];
  }

  /** Flagged, and with the lock free, the next Authorize brings the snapshot up to date. */
  lemma NextAuthorizeRebuilds(steps: seq<Step>, t: nat)
    requires var c := After(steps); c.dirty && c.lock.None? && At(c, t).Idle? && t != BOOT
    ensures var c := After(steps + [Swap(t)] + [Acquire(t)] + [Scan(t)] + [Install(t)]);
            !c.dirty && c.cur == After(steps).cur && c.snap == Some(c.cur)
  {
    AfterSnoc(steps, Swap(t));
    AfterSnoc(steps + [Swap(t)], Acquire(t));
    AfterSnoc(steps + [Swap(t)] + [Acquire(t)], Scan(t));
    AfterSnoc(steps + [Swap(t)] + [Acquire(t)] + [Scan(t)], Install(t));
  }

  /** A rebuild that failed is made good: once its thread has flagged again, its next Authorize brings
      the snapshot up to date. */
  lemma FailureRetried(steps: seq<Step>, t: nat)
    requires var c := After(steps); At(c, t).Failing? && c.lock.None?
    ensures var c := After(steps + [MarkAgain(t)] + [Swap(t)] + [Acquire(t)] + [Scan(t)] + [Install(t)]);
            !c.dirty && c.cur == After(steps).cur && c.snap == Some(c.cur)
  {
    AlwaysSound(steps);
    AfterSnoc(steps, MarkAgain(t));
    NextAuthorizeRebuilds(steps + [MarkAgain(t)], t);
  }

  /** And a scan that fails leaves the snapshot as it was, the lock free and, but for the first
      rebuild, the thread bound to flag again. */
  lemma FailureKeeps(steps: seq<Step>, t: nat)
    requires At(After(steps), t).Holding?
    ensures var c, d := After(steps), After(steps + [ScanFails(t)]);
            && d.snap == c.snap && d.cur == c.cur && d.lock.None?
            && (At(d, t).Failing? <==> t != BOOT)
            && (t != BOOT ==> After(steps + [ScanFails(t)] + [MarkAgain(t)]).dirty)
  {
    AfterSnoc(steps, ScanFails(t));
    AfterSnoc(steps + [ScanFails(t)], MarkAgain(t));
  }

  /** What the service answers: the snapshot of the version it holds, none meaning no. */
  ghost predicate Allows(d: Decoders, predefined: RoleTable, history: nat -> seq<Raw>, c: Cache,
                         p: Principal, permission: string, scopes: seq<string>) {
    c.snap.Some? && Grants(Compile(predefined, Parsed(d, history(c.snap.value))), p, permission, scopes)
  }

  /** At rest, then, decisions are what the current records declare. */
  lemma DecisionsCurrent(d: Decoders, predefined: RoleTable, history: nat -> seq<Raw>, steps: seq<Step>,
                         p: Principal, permission: string, scopes: seq<string>)
    requires Quiescent(After(steps))
    requires var c := After(steps);
             (c.cur > c.lost || c.covered || c.booted == Some(c.cur)) && WellFormed(d, history(c.cur))
    ensures var c := After(steps);
            Allows(d, predefined, history, c, p, permission, scopes)
            <==> Declared(predefined, Parsed(d, history(c.cur)), p, permission, scopes)
  {
    CoherentExactly(steps);
    var raws := history(After(steps).cur);
    ParsedUnique(d, raws);
    CompiledIsDeclared(predefined, Parsed(d, raws), p, permission, scopes);
  }

  /** And a request on any tenant and region is answered as the records stored now say. */
  lemma RequestsCurrent(d: Decoders, predefined: RoleTable, history: nat -> seq<Raw>, steps: seq<Step>,
                        p: Principal, permission: string, tenant: string, region: string)
    requires Quiescent(After(steps))
    requires var c := After(steps);
             (c.cur > c.lost || c.covered || c.booted == Some(c.cur)) && WellFormed(d, history(c.cur))
    ensures var c := After(steps);
            Allows(d, predefined, history, c, p, EffectivePermission(permission, tenant), Scopes(tenant, region))
            <==> StoredGrants(d, predefined, history(c.cur), p, EffectivePermission(permission, tenant), tenant, region)
  {
    CoherentExactly(steps);
    StoredDecides(d, predefined, history(After(steps).cur), p, EffectivePermission(permission, tenant), tenant, region);
  }
}
