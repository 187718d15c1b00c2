/** Heads across a replica's life: the head in the store is the head in memory, it carries a run
    across a restart, and a restore in place keeps the chain that was in memory. */
module ReplicaLaws {
  import opened Bytes
  import opened Storage
  import opened StorageLaws
  import opened HashChain
  import opened Fsm
  import opened FsmLaws

  // ----- The head in the store is the head in memory ---------------------------------------

  /** The log leaves the reserved head record to the state machine. */
  ghost predicate SparesHead(env: Env, log: seq<LogRecord>) {
    forall i :: 0 <= i < |log| ==> SparesHeadEntry(env, log[i])
  }

  predicate SparesHeadEntry(env: Env, r: LogRecord) {
    match env.decode(r.command)
    case None => true
    case Some(cmd) => !Addresses(env.keys, cmd, env.HeadEntry())
  }

  ghost predicate Persisted(env: Env, s: FsmState) {
    && s.chain.Some? && |s.chain.value.digest| == DIGEST_SIZE
    && env.HeadEntry() in s.db
    && s.db[env.HeadEntry()].expiresAt == 0
    && s.db[env.HeadEntry()].value == env.heads.pack(s.chain.value)
  }

  lemma PersistedLoads(env: Env, s: FsmState, clock: Clock)
    requires env.heads.Lossless() && Persisted(env, s) && clock.Sane()
    ensures LoadHead(env, s.db, clock) == s.chain.value
  {
  }

  /** The head loaded is the one stored under the head's key, if it is there, not expired, unpacks and
      has a digest of 32 bytes; in every other case it is genesis. */
  lemma LoadHeadExact(env: Env, db: Db, clock: Clock)
    ensures var k := env.HeadEntry();
            var good := && k in db && !clock.expired(0, db[k].expiresAt) && db[k].value != []
                        && env.heads.unpack(db[k].value).Some?
                        && |env.heads.unpack(db[k].value).value.digest| == 32;
            && (good ==> Some(LoadHead(env, db, clock)) == env.heads.unpack(db[k].value))
            && (!good ==> LoadHead(env, db, clock) == ChainHead(0, Zeros(32)))
  {
    GetExact(env.keys, db, env.headKey, false, clock);
  }

  lemma HeadSized(env: Env, s: FsmState, r: LogRecord, clock: Clock)
    requires env.hash.Sized() && (s.chain.Some? ==> |s.chain.value.digest| == DIGEST_SIZE)
    ensures var s' := WithHead(env, s, r, clock); s'.chain.Some? && |s'.chain.value.digest| == DIGEST_SIZE
  {
  }

  /** Applying an entry that spares the head record leaves the new head in the store. */
  lemma ApplyPersists(env: Env, s: FsmState, r: LogRecord, clock: Clock)
    requires env.hash.Sized() && r.index != 0 && SparesHeadEntry(env, r)
    requires s.chain.Some? ==> |s.chain.value.digest| == DIGEST_SIZE
    ensures Persisted(env, Applied(env, s, r, clock))
  {
    var s1 := WithHead(env, s, r, clock);
    HeadWrite(env, s, r, clock);
    HeadSized(env, s, r, clock);
    assert Persisted(env, s1);
    var cmd := env.decode(r.command);
    if cmd.Some? {
      UnaddressedKept(env.keys, s1.db, cmd.value, r.index, clock, env.HeadEntry());
      assert Lookup(Applied(env, s, r, clock).db, env.HeadEntry()) == Lookup(s1.db, env.HeadEntry());
    }
  }

  ghost predicate PersistSteps(env: Env, run: Run) {
    forall i :: 0 <= i < |run.states| - 1 && (run.states[i].chain.Some? ==> Persisted(env, run.states[i]))
                ==> Persisted(env, run.states[i + 1])
  }

  lemma RunPersistSteps(env: Env, sched: Schedule, log: seq<LogRecord>, run: Run)
    requires IsRun(env, sched, START, log, run)
    requires env.hash.Sized() && Increasing(0, log) && SparesHead(env, log)
    ensures PersistSteps(env, run)
  {
    forall i | 0 <= i < |run.states| - 1 && (run.states[i].chain.Some? ==> Persisted(env, run.states[i]))
      ensures Persisted(env, run.states[i + 1])
    {
      RunStep(env, sched, START, log, run, i);
      ApplyPersists(env, run.states[i], log[i], sched(i));
    }
  }

  lemma {:induction false} PersistedAlong(env: Env, run: Run, n: nat)
    requires PersistSteps(env, run) && 0 < n < |run.states| && run.states[0].chain.None?
    ensures Persisted(env, run.states[n])
  {
    var i := n - 1;
    if i > 0 {
      PersistedAlong(env, run, i);
    }
    assert run.states[i].chain.Some? ==> Persisted(env, run.states[i]);
    assert Persisted(env, run.states[i + 1]);
  }

  lemma RunPersists(env: Env, sched: Schedule, log: seq<LogRecord>, run: Run, n: nat)
    requires IsRun(env, sched, START, log, run)
    requires env.hash.Sized() && Increasing(0, log) && SparesHead(env, log)
    requires 0 < n <= |log|
    ensures Persisted(env, run.states[n])
  {
    RunPersistSteps(env, sched, log, run);
    PersistedAlong(env, run, n);
  }

  lemma AppliedChain(env: Env, s: FsmState, r: LogRecord, clock: Clock)
    ensures Applied(env, s, r, clock).chain == Some(Advanced(env.hash, CurrentHead(env, s, clock), r))
  {
  }

  lemma StartHead(env: Env, clock: Clock)
    ensures CurrentHead(env, START, clock) == GENESIS
  {
  }

  ghost predicate ChainSteps(h: Hash, run: Run, log: seq<LogRecord>) {
    && run.Over(log)
    && (forall i :: 0 <= i < |log| ==>
          run.states[i + 1].chain == Some(Advanced(h, if i == 0 then GENESIS else ChainOf(run.states[i]), log[i])))
  }

  function ChainOf(s: FsmState): ChainHead {
    if s.chain.Some? then s.chain.value else GENESIS
  }

  lemma RunChainSteps(env: Env, sched: Schedule, log: seq<LogRecord>, run: Run)
    requires IsRun(env, sched, START, log, run)
    ensures ChainSteps(env.hash, run, log)
  {
    forall i | 0 <= i < |log|
      ensures run.states[i + 1].chain == Some(Advanced(env.hash, if i == 0 then GENESIS
          else ChainOf(run.states[i]), log[i]))
    {
      RunStep(env, sched, START, log, run, i);
      AppliedChain(env, run.states[i], log[i], sched(i));
      if i == 0 {
        StartHead(env, sched(0));
      } else {
        RunSeeded(env, sched, log, run, i);
      }
    }
  }

  lemma RunSeeded(env: Env, sched: Schedule, log: seq<LogRecord>, run: Run, n: nat)
    requires IsRun(env, sched, START, log, run) && 0 < n <= |log|
    ensures run.states[n].chain.Some?
  {
    RunStep(env, sched, START, log, run, n - 1);
    AppliedChain(env, run.states[n - 1], log[n - 1], sched(n - 1));
  }

  lemma {:induction false} ChainFolds(h: Hash, run: Run, log: seq<LogRecord>, n: nat)
    requires ChainSteps(h, run, log) && 0 < n <= |log|
    ensures run.states[n].chain == Some(HeadOf(h, GENESIS, log[..n]))
  {
    assert log[..n][..n - 1] == log[..n - 1];
    var i := n - 1;
    assert run.states[i + 1].chain == Some(Advanced(h, if i == 0 then GENESIS else ChainOf(run.states[i]), log[i]));
    if n > 1 {
      ChainFolds(h, run, log, n - 1);
    }
  }

  /** The chain in memory is the chain over the log so far, from genesis. */
  lemma ChainIsHistory(env: Env, sched: Schedule, log: seq<LogRecord>, run: Run, n: nat)
    requires IsRun(env, sched, START, log, run) && 0 < n <= |log|
    ensures run.states[n].chain == Some(HeadOf(env.hash, GENESIS, log[..n]))
  {
    RunChainSteps(env, sched, log, run);
    ChainFolds(env.hash, run, log, n);
  }

  /** After every entry, whoever reads the head record back gets the digest of the whole log so far. */
  lemma HeadInStore(env: Env, sched: Schedule, log: seq<LogRecord>, run: Run, n: nat, clock: Clock)
    requires IsRun(env, sched, START, log, run)
    requires env.hash.Sized() && env.heads.Lossless() && clock.Sane()
    requires Increasing(0, log) && SparesHead(env, log) && n <= |log|
    ensures LoadHead(env, run.states[n].db, clock) == HeadOf(env.hash, GENESIS, log[..n])
  {
    if n == 0 {
      StartHead(env, clock);
    } else {
      RunPersists(env, sched, log, run, n);
      ChainIsHistory(env, sched, log, run, n);
      PersistedLoads(env, run.states[n], clock);
    }
  }

  // ----- Start and restart ----------------------------------------------------------------------

  /** An entry's outcome depends on the store, the hub and the current head only. */
  lemma AppliedCongruent(env: Env, s: FsmState, t: FsmState, r: LogRecord, clock: Clock)
    requires s.db == t.db && CurrentHead(env, s, clock) == CurrentHead(env, t, clock)
    ensures Applied(env, s, r, clock).db == Applied(env, t, r, clock).db
    ensures Applied(env, s, r, clock).chain == Applied(env, t, r, clock).chain
    ensures Applied(env, s, r, clock).chain.Some?
    ensures s.hub == t.hub ==> Applied(env, s, r, clock) == Applied(env, t, r, clock)
    ensures EntryChanges(env, s, r, clock) == EntryChanges(env, t, r, clock)
    ensures ResultOf(env, s, r, clock) == ResultOf(env, t, r, clock)
  {
    assert WithHead(env, s, r, clock).db == WithHead(env, t, r, clock).db;
  }

  /** A node that seeds its chain at start, as PostConstruct does, runs like one that seeds it at
      the first entry. */
  lemma {:induction false} SeededAlike(env: Env, sched: Schedule, boot: Clock, log: seq<LogRecord>, run: Run,
                                       seeded: Run, n: nat)
    requires IsRun(env, sched, START, log, run) && IsRun(env, sched, Seeded(env, START, boot), log, seeded)
    requires 0 < n <= |log|
    ensures seeded.states[n] == run.states[n]
    ensures seeded.changes[n - 1] == run.changes[n - 1] && seeded.results[n - 1] == run.results[n - 1]
  {
    var i := n - 1;
    RunStep(env, sched, START, log, run, i);
    RunStep(env, sched, Seeded(env, START, boot), log, seeded, i);
    if i == 0 {
      StartHead(env, boot);
      StartHead(env, sched(0));
    } else {
      SeededAlike(env, sched, boot, log, run, seeded, i);
    }
    AppliedCongruent(env, run.states[i], seeded.states[i], log[i], sched(i));
  }

  /** A process over the given store that has seen nothing yet: its chain is not seeded, or seeded
      from the store under the clock it started with. */
  predicate Boots(env: Env, db: Db, s: FsmState, boot: Clock) {
    s.db == db && (s.chain.None? || s.chain == Some(LoadHead(env, db, boot)))
  }

  lemma RestartHead(env: Env, sched: Schedule, log: seq<LogRecord>, run: Run, cut: nat, start: FsmState, boot: Clock,
                    clock: Clock)
    requires IsRun(env, sched, START, log, run)
    requires env.hash.Sized() && env.heads.Lossless() && boot.Sane() && clock.Sane()
    requires Increasing(0, log) && SparesHead(env, log) && cut <= |log|
    requires Boots(env, run.states[cut].db, start, boot)
    ensures CurrentHead(env, start, clock) == CurrentHead(env, run.states[cut], clock)
  {
    if cut > 0 {
      RunPersists(env, sched, log, run, cut);
      PersistedLoads(env, run.states[cut], clock);
      PersistedLoads(env, run.states[cut], boot);
    } else {
      StartHead(env, clock);
      StartHead(env, boot);
    }
  }

  ghost predicate Follows(run: Run, again: Run, cut: nat, i: nat)
    requires cut + i < |run.states| && i < |again.states|
  {
    && again.states[i].db == run.states[cut + i].db
    && (i > 0 ==> again.states[i].chain == run.states[cut + i].chain && again.states[i].chain.Some?)
  }

  /** The schedule from entry n on. */
  function From(sched: Schedule, n: nat): Schedule {
    (i: nat) => sched(n + i)
  }

  lemma FollowStep(env: Env, clock: Clock, r: LogRecord, s: FsmState, cs: seq<Change>, x: FsmResult, s': FsmState,
                   t: FsmState, ds: seq<Change>, y: FsmResult, t': FsmState)
    requires Moment(env, clock, r, s, cs, x, s') && Moment(env, clock, r, t, ds, y, t')
    requires s.db == t.db && CurrentHead(env, s, clock) == CurrentHead(env, t, clock)
    ensures s'.db == t'.db && s'.chain == t'.chain && s'.chain.Some? && x == y
  {
    AppliedCongruent(env, s, t, r, clock);
  }

  /** Two runs in step at an entry they share are in step after it. */
  lemma RunsInStep(env: Env, sched: Schedule, start: FsmState, log: seq<LogRecord>, run: Run, n: nat,
                   sched': Schedule, start': FsmState, log': seq<LogRecord>, run': Run, m: nat)
    requires IsRun(env, sched, start, log, run) && n < |log|
    requires IsRun(env, sched', start', log', run') && m < |log'|
    requires log[n] == log'[m] && sched(n) == sched'(m)
    requires run.states[n].db == run'.states[m].db
    requires CurrentHead(env, run.states[n], sched(n)) == CurrentHead(env, run'.states[m], sched(n))
    ensures var s, t := run.states[n + 1], run'.states[m + 1]; s.db == t.db && s.chain == t.chain && s.chain.Some?
    ensures run.results[n] == run'.results[m]
  {
    FollowStep(env, sched(n), log[n], run.states[n], run.changes[n], run.results[n], run.states[n + 1],
               run'.states[m], run'.changes[m], run'.results[m], run'.states[m + 1]);
  }

  lemma RestartStep(env: Env, sched: Schedule, log: seq<LogRecord>, run: Run, cut: nat, start: FsmState, again: Run,
                    m: nat)
    requires cut + m < |log|
    requires IsRun(env, sched, START, log, run)
    requires IsRun(env, From(sched, cut), start, log[cut..], again)
    requires again.states[m].db == run.states[cut + m].db
    requires CurrentHead(env, again.states[m], sched(cut + m)) == CurrentHead(env, run.states[cut + m], sched(cut + m))
    ensures Follows(run, again, cut, m + 1)
    ensures again.results[m] == run.results[cut + m]
  {
    RunsInStep(env, sched, START, log, run, cut + m, From(sched, cut), start, log[cut..], again, m);
  }

  /** A state machine started over the backup of a prefix, its chain seeded at once or later, gives
      entry by entry the store, the answers and the digest of one that never stopped. */
  lemma {:induction false} RestartTransparent(env: Env, sched: Schedule, log: seq<LogRecord>, run: Run, cut: nat,
                                              start: FsmState, boot: Clock, again: Run, i: nat)
    requires env.hash.Sized() && env.heads.Lossless() && Increasing(0, log) && SparesHead(env, log)
    requires boot.Sane() && forall n: nat :: sched(n).Sane()
    requires cut + i <= |log|
    requires IsRun(env, sched, START, log, run)
    requires Boots(env, run.states[cut].db, start, boot) && IsRun(env, From(sched, cut), start, log[cut..], again)
    ensures Follows(run, again, cut, i)
    ensures i > 0 ==> again.results[i - 1] == run.results[cut + i - 1]
  {
    if i > 0 {
      var m := i - 1;
      RestartTransparent(env, sched, log, run, cut, start, boot, again, m);
      if m == 0 {
        RestartHead(env, sched, log, run, cut, start, boot, sched(cut));
      }
      RestartStep(env, sched, log, run, cut, start, again, m);
    }
  }

  // ----- Restore into a running state machine ---------------------------------------------------

  /** From a seeded chain every run folds its entries onto it, whatever the store holds. */
  lemma {:induction false} SeededChain(env: Env, sched: Schedule, start: FsmState, log: seq<LogRecord>, run: Run,
                                       n: nat)
    requires IsRun(env, sched, start, log, run) && start.chain.Some? && n <= |log|
    ensures run.states[n].chain == Some(HeadOf(env.hash, start.chain.value, log[..n]))
  {
    if n > 0 {
      var i := n - 1;
      SeededChain(env, sched, start, log, run, i);
      RunStep(env, sched, start, log, run, i);
      AppliedChain(env, run.states[i], log[i], sched(i));
      assert log[..n][..i] == log[..i];
    }
  }

  /** A replica, seeded at start as every node is, has applied the first a entries, none included.
      It restores a snapshot and goes on from entry b to n. Restore keeps its chain: the entries
      from b on are folded onto the first a. */
  lemma RestoredChain(env: Env, sched: Schedule, boot: Clock, log: seq<LogRecord>, replica: Run, a: nat,
                      snapshot: Db, b: nat, later: Schedule, again: Run, n: nat)
    requires IsRun(env, sched, Seeded(env, START, boot), log, replica) && a <= |log| && b <= n <= |log|
    requires IsRun(env, later, replica.states[a].(db := snapshot), log[b..], again)
    ensures again.states[n - b].chain == Some(HeadOf(env.hash, GENESIS, log[..a] + log[b..n]))
  {
    StartHead(env, boot);
    SeededChain(env, sched, Seeded(env, START, boot), log, replica, a);
    SeededChain(env, later, replica.states[a].(db := snapshot), log[b..], again, n - b);
    HeadConcat(env.hash, GENESIS, log[..a], log[b..n]);
    assert log[b..][..n - b] == log[b..n];
  }

  /** So the head it reports at n is that of the log up to n exactly when it was not behind the
      snapshot and is not ahead of n: a replica that was behind is wrong from then on, short of a
      broken hash, and one that was ahead keeps its head until the log catches up. */
  lemma RestoreKeepsChain(env: Env, sched: Schedule, boot: Clock, log: seq<LogRecord>, replica: Run, a: nat,
                          snapshot: Db, b: nat, later: Schedule, again: Run, n: nat) returns (w: Evidence)
    requires env.hash.Sized() && Increasing(0, log)
    requires IsRun(env, sched, Seeded(env, START, boot), log, replica) && a <= |log| && b <= n <= |log|
    requires IsRun(env, later, replica.states[a].(db := snapshot), log[b..], again)
    ensures var head, right := again.states[n - b].chain, Some(HeadOf(env.hash, GENESIS, log[..n]));
            && (b <= a <= n ==> head == right)
            && (head == right ==> b <= a <= n || (a < b && BrokenHash(env.hash, w)))
            && (n < a && b <= a ==> head == Some(HeadOf(env.hash, GENESIS, log[..a])))
  {
    RestoredChain(env, sched, boot, log, replica, a, snapshot, b, later, again, n);
    w := GapOrReplay(env.hash, log, a, b, n);
  }

  lemma GapOrReplay(h: Hash, log: seq<LogRecord>, a: nat, b: nat, n: nat) returns (w: Evidence)
    requires h.Sized() && Increasing(0, log) && a <= |log| && b <= n <= |log|
    ensures var head, right := HeadOf(h, GENESIS, log[..a] + log[b..n]), HeadOf(h, GENESIS, log[..n]);
            && (b <= a <= n ==> head == right)
            && (head == right ==> b <= a <= n || (a < b && BrokenHash(h, w)))
            && (n < a && b <= a ==> head == HeadOf(h, GENESIS, log[..a]))
  {
    w := SameLog;
    if b <= a {
      ReplayedHead(h, log, a, b, n);
      if n < a {
        IncreasingHead(h, log[..a]);
        IncreasingHead(h, log[..n]);
      }
    } else if HeadOf(h, GENESIS, log[..a] + log[b..n]) == HeadOf(h, GENESIS, log[..n]) {
      w := GapShows(h, log, a, b, n);
    }
  }

  /** A state machine whose chain was never seeded takes it from the snapshot, and is right. */
  lemma RestoreUnseeded(env: Env, sched: Schedule, log: seq<LogRecord>, run: Run, b: nat, again: Run, n: nat)
    requires env.hash.Sized() && env.heads.Lossless() && Increasing(0, log) && SparesHead(env, log)
    requires forall i: nat :: sched(i).Sane()
    requires IsRun(env, sched, START, log, run) && b < n <= |log|
    requires IsRun(env, From(sched, b), START.(db := run.states[b].db), log[b..], again)
    ensures again.states[n - b].chain == Some(HeadOf(env.hash, GENESIS, log[..n]))
    ensures again.states[n - b].db == run.states[n].db
  {
    RestartTransparent(env, sched, log, run, b, START.(db := run.states[b].db), sched(b), again, n - b);
    ChainIsHistory(env, sched, log, run, n);
  }
}
