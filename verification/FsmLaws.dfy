/** Whole replicated runs: no version ever comes back, compare-and-set succeeds exactly on an
    untouched key, and reclaim removes only what was seen expired. */
module FsmLaws {
  import opened Bytes
  import opened OrderedKeys
  import opened Storage
  import opened StorageLaws
  import opened HashChain
  import opened Fsm

  /** The clock each entry is applied under. */
  type Schedule = nat -> Clock

  /** A run over a log: the state before each entry and after the last, and for each entry
      what it changed and what it answered. */
  datatype Run = Run(states: seq<FsmState>, changes: seq<seq<Change>>, results: seq<FsmResult>) {
    predicate Over(log: seq<LogRecord>) {
      |states| == |log| + 1 && |changes| == |log| && |results| == |log|
    }
  }

  /** Entry r, applied under clock to s, made changes cs, answered res and led to s'. */
  ghost predicate Moment(env: Env, clock: Clock, r: LogRecord, s: FsmState, cs: seq<Change>, res: FsmResult,
                         s': FsmState) {
    && s' == Applied(env, s, r, clock)
    && cs == EntryChanges(env, s, r, clock)
    && res == ResultOf(env, s, r, clock)
  }

  /** The run of the state machine over a log from a given start. */
  ghost predicate IsRun(env: Env, sched: Schedule, start: FsmState, log: seq<LogRecord>, run: Run) {
    && run.Over(log)
    && run.states[0] == start
    && (forall i {:trigger Moment(env, sched(i), log[i], run.states[i], run.changes[i], run.results[i],
        run.states[i + 1])} ::
          0 <= i < |log| ==> Moment(env, sched(i), log[i], run.states[i], run.changes[i], run.results[i],
              run.states[i + 1]))
  }

  lemma RunStep(env: Env, sched: Schedule, start: FsmState, log: seq<LogRecord>, run: Run, i: nat)
    requires IsRun(env, sched, start, log, run) && i < |log|
    ensures run.states[i + 1] == Applied(env, run.states[i], log[i], sched(i))
    ensures run.changes[i] == EntryChanges(env, run.states[i], log[i], sched(i))
    ensures run.results[i] == ResultOf(env, run.states[i], log[i], sched(i))
  {
    assert Moment(env, sched(i), log[i], run.states[i], run.changes[i], run.results[i], run.states[i + 1]);
  }

  lemma ExtendRun(env: Env, sched: Schedule, start: FsmState, log: seq<LogRecord>, run: Run,
                  r: LogRecord, cs: seq<Change>, res: FsmResult, s': FsmState)
    requires IsRun(env, sched, start, log, run)
    requires Moment(env, sched(|log|), r, run.states[|log|], cs, res, s')
    ensures IsRun(env, sched, start, log + [r], Run(run.states + [s'], run.changes + [cs], run.results + [res]))
  {
    var long := Run(run.states + [s'], run.changes + [cs], run.results + [res]);
    forall i | 0 <= i < |log| + 1
      ensures Moment(env, sched(i), (log + [r])[i], long.states[i], long.changes[i], long.results[i],
          long.states[i + 1])
    {
      if i < |log| {
        assert Moment(env, sched(i), log[i], run.states[i], run.changes[i], run.results[i], run.states[i + 1]);
      }
    }
  }

  /** Every log has its run. */
  function Replay(env: Env, sched: Schedule, start: FsmState, log: seq<LogRecord>): (run: Run)
    ensures IsRun(env, sched, start, log, run)
  {
    if log == [] then Run([start], [], [])
    else
      var n := |log| - 1;
      var run := Replay(env, sched, start, log[..n]);
      var s := run.states[n];
      var s' := Applied(env, s, log[n], sched(n));
      var cs := EntryChanges(env, s, log[n], sched(n));
      var res := ResultOf(env, s, log[n], sched(n));
      ExtendRun(env, sched, start, log[..n], run, log[n], cs, res, s');
      assert log[..n] + [log[n]] == log;
      Run(run.states + [s'], run.changes + [cs], run.results + [res])
  }

  // ----- One entry, seen from one key ---------------------------------------------------

  /** The write that stores the head, which every entry makes before its command runs. */
  function HeadChanges(env: Env, s: FsmState, r: LogRecord, clock: Clock): seq<Change> {
    var head := Advanced(env.hash, CurrentHead(env, s, clock), r);
    PutEffect(env.keys, s.db, HeadRequest(env, head), r.index, clock).changes
  }

  function CommandChanges(env: Env, s: FsmState, r: LogRecord, clock: Clock): seq<Change> {
    match EntryEffect(env, WithHead(env, s, r, clock).db, r, clock)
    case None => []
    case Some(eff) => eff.changes
  }

  /** All an entry does to the store. */
  function EntryChanges(env: Env, s: FsmState, r: LogRecord, clock: Clock): seq<Change> {
    HeadChanges(env, s, r, clock) + CommandChanges(env, s, r, clock)
  }

  lemma AppliedInSteps(env: Env, s: FsmState, r: LogRecord, clock: Clock)
    ensures var t, s1 := Applied(env, s, r, clock), WithHead(env, s, r, clock);
            var head, cs := HeadChanges(env, s, r, clock), CommandChanges(env, s, r, clock);
            && s1.db == ApplyChanges(s.db, head) && s1.hub == s.hub + Events(head)
            && t.db == ApplyChanges(s1.db, cs) && t.hub == s1.hub + Events(cs)
  {
  }

  /** Store and hub after an entry come of its changes alone. */
  lemma AppliedDb(env: Env, s: FsmState, r: LogRecord, clock: Clock)
    ensures var t, cs := Applied(env, s, r, clock), EntryChanges(env, s, r, clock);
            t.db == ApplyChanges(s.db, cs) && t.hub == s.hub + Events(cs)
  {
    var head, cs := HeadChanges(env, s, r, clock), CommandChanges(env, s, r, clock);
    AppliedInSteps(env, s, r, clock);
    ApplyConcat(s.db, head, cs);
    assert s.hub + Events(head) + Events(cs) == s.hub + (Events(head) + Events(cs));
  }

  /** Storing the head touches the head entry alone, and stamps it with the entry's index. */
  lemma HeadWrite(env: Env, s: FsmState, r: LogRecord, clock: Clock)
    requires r.index != 0
    ensures var db := WithHead(env, s, r, clock).db;
            && db.Keys == s.db.Keys + {env.HeadEntry()}
            && (forall k :: k != env.HeadEntry() ==> Lookup(db, k) == Lookup(s.db, k))
            && db[env.HeadEntry()] == Entry(r.index, 0, env.heads.pack(WithHead(env, s, r, clock).chain.value), 0)
  {
    var head := Advanced(env.hash, CurrentHead(env, s, clock), r);
    ApplyOne(s.db, PutChange(s.db, env.HeadEntry(), HeadRequest(env, head), r.index, clock, 0));
  }

  lemma ChangesCarryIndex(env: Env, s: FsmState, r: LogRecord, clock: Clock)
    requires r.index != 0
    ensures forall c :: c in EntryChanges(env, s, r, clock) && c.SetEntry? ==> c.entry.version == r.index
  {
    forall c | c in CommandChanges(env, s, r, clock) && c.SetEntry? ensures c.entry.version == r.index {
      ChangesOfCommand(env.keys, WithHead(env, s, r, clock).db, env.decode(r.command).value, r.index, clock, c);
    }
  }

  /** An entry either leaves a key alone, or leaves it absent or at the entry's own index. */
  lemma EntryOnKey(env: Env, s: FsmState, r: LogRecord, clock: Clock, k: ByteSeq)
    requires r.index != 0
    ensures var after := Applied(env, s, r, clock).db;
            if Touched(EntryChanges(env, s, r, clock), k)
            then k in after ==> after[k].version == r.index
            else Lookup(after, k) == Lookup(s.db, k)
  {
    var cs := EntryChanges(env, s, r, clock);
    AppliedDb(env, s, r, clock);
    if Touched(cs, k) {
      ChangesCarryIndex(env, s, r, clock);
      TouchedVersion(s.db, cs, k, r.index);
    } else {
      UntouchedKept(s.db, cs, k);
    }
  }

  // ----- No ABA --------------------------------------------------------------------------

  /** What one entry at the given index may do to key k. */
  ghost predicate KeyStep(before: Db, after: Db, cs: seq<Change>, index: U64, k: ByteSeq) {
    if Touched(cs, k) then k in after ==> after[k].version == index
    else Lookup(after, k) == Lookup(before, k)
  }

  ghost predicate KeyHistory(run: Run, log: seq<LogRecord>, k: ByteSeq) {
    && run.Over(log)
    && k !in run.states[0].db
    && (forall i :: 0 <= i < |log| ==> KeyStep(run.states[i].db, run.states[i + 1].db, run.changes[i], log[i].index, k))
  }

  lemma RunHistory(env: Env, sched: Schedule, log: seq<LogRecord>, run: Run, k: ByteSeq)
    requires IsRun(env, sched, START, log, run) && Increasing(0, log)
    ensures KeyHistory(run, log, k)
  {
    forall i | 0 <= i < |log|
      ensures KeyStep(run.states[i].db, run.states[i + 1].db, run.changes[i], log[i].index, k)
    {
      assert Moment(env, sched(i), log[i], run.states[i], run.changes[i], run.results[i], run.states[i + 1]);
      EntryOnKey(env, run.states[i], log[i], sched(i), k);
    }
  }

  /** The last entry before n that wrote or removed k. */
  function LastWrite(run: Run, n: nat, k: ByteSeq): (m: Option<nat>)
    requires n <= |run.changes|
    ensures m.Some? ==> m.value < n && Touched(run.changes[m.value], k)
    ensures forall i :: (if m.Some? then m.value + 1 else 0) <= i < n ==> !Touched(run.changes[i], k)
  {
    if n == 0 then None
    else if Touched(run.changes[n - 1], k) then Some(n - 1)
    else LastWrite(run, n - 1, k)
  }

  /** Nothing changes at a key that no entry touches. */
  lemma {:induction false} UnwrittenKept(run: Run, log: seq<LogRecord>, i: nat, j: nat, k: ByteSeq)
    requires KeyHistory(run, log, k) && i <= j <= |log|
    requires forall m :: i <= m < j ==> !Touched(run.changes[m], k)
    ensures Lookup(run.states[i].db, k) == Lookup(run.states[j].db, k)
  {
    if i < j {
      UnwrittenKept(run, log, i, j - 1, k);
      assert KeyStep(run.states[j - 1].db, run.states[j].db, run.changes[j - 1], log[j - 1].index, k);
    }
  }

  lemma HistoryVersion(run: Run, log: seq<LogRecord>, n: nat, k: ByteSeq)
    requires KeyHistory(run, log, k) && n <= |log|
    ensures VersionAt(run, log, n, k)
  {
    match LastWrite(run, n, k)
    case None =>
      UnwrittenKept(run, log, 0, n, k);
    case Some(m) =>
      UnwrittenKept(run, log, m + 1, n, k);
      assert KeyStep(run.states[m].db, run.states[m + 1].db, run.changes[m], log[m].index, k);
  }

  /** The version stored under k before entry n is the index of the last entry that wrote k,
      whose entry still stands; a key never written is absent. */
  ghost predicate VersionAt(run: Run, log: seq<LogRecord>, n: nat, k: ByteSeq)
    requires run.Over(log) && n <= |log|
  {
    var db := run.states[n].db;
    match LastWrite(run, n, k)
    case None => k !in db
    case Some(m) =>
      && Lookup(run.states[m + 1].db, k) == Lookup(db, k)
      && (k in db ==> db[k].version == log[m].index)
  }

  /** In every replicated run a stored version is the index of the key's last write. */
  lemma VersionIsLastWrite(env: Env, sched: Schedule, log: seq<LogRecord>, run: Run, n: nat, k: ByteSeq)
    requires IsRun(env, sched, START, log, run) && Increasing(0, log)
    requires n <= |log|
    ensures VersionAt(run, log, n, k)
  {
    RunHistory(env, sched, log, run, k);
    HistoryVersion(run, log, n, k);
  }

  lemma HistoryNoAba(run: Run, log: seq<LogRecord>, i: nat, j: nat, k: ByteSeq)
    requires KeyHistory(run, log, k) && Increasing(0, log) && i <= j <= |log|
    requires var a, b := run.states[i].db, run.states[j].db; k in a && k in b && a[k].version == b[k].version
    ensures forall m :: i <= m < j ==> !Touched(run.changes[m], k)
    ensures forall m :: i <= m <= j ==> Lookup(run.states[m].db, k) == Lookup(run.states[i].db, k)
  {
    HistoryVersion(run, log, i, k);
    HistoryVersion(run, log, j, k);
    assert LastWrite(run, i, k) == LastWrite(run, j, k);
    forall m | i <= m <= j ensures Lookup(run.states[m].db, k) == Lookup(run.states[i].db, k) {
      UnwrittenKept(run, log, i, m, k);
    }
  }

  /** A version seen twice means nothing happened to the key in between: no write, no removal,
      and the identical entry at every point. */
  lemma NoAba(env: Env, sched: Schedule, log: seq<LogRecord>, run: Run, i: nat, j: nat, k: ByteSeq)
    requires IsRun(env, sched, START, log, run) && Increasing(0, log)
    requires i <= j <= |log|
    requires var a, b := run.states[i].db, run.states[j].db; k in a && k in b && a[k].version == b[k].version
    ensures forall m :: i <= m < j ==> !Touched(run.changes[m], k)
    ensures forall m :: i <= m <= j ==> Lookup(run.states[m].db, k) == Lookup(run.states[i].db, k)
  {
    RunHistory(env, sched, log, run, k);
    HistoryNoAba(run, log, i, j, k);
  }

  /** The command meets the head as this very entry wrote it, and every other key as it was. */
  lemma CasResult(env: Env, s: FsmState, r: LogRecord, clock: Clock, req: RecordRequest)
    requires r.index != 0
    requires env.decode(r.command) == Some(Put(req)) && req.key.Some? && req.compareAndSet
    ensures var k := env.keys.encode(req.key.value);
            ResultOf(env, s, r, clock)
            == Done(Status(if k == env.HeadEntry() then req.version == r.index else CasHolds(s.db, k, req.version)))
  {
    var k := env.keys.encode(req.key.value);
    HeadWrite(env, s, r, clock);
    assert k != env.HeadEntry() ==> Lookup(WithHead(env, s, r, clock).db, k) == Lookup(s.db, k);
  }

  /** Compare-and-set on a version v > 0 succeeds exactly when the entry at index v wrote the
      key, left it present, and nothing has written or removed it since; on the head record,
      which the entry itself has just written, exactly when v is the entry's own index. */
  lemma CasExact(env: Env, sched: Schedule, log: seq<LogRecord>, run: Run, n: nat, req: RecordRequest)
    requires IsRun(env, sched, START, log, run) && Increasing(0, log) && n < |log|
    requires env.decode(log[n].command) == Some(Put(req))
    requires req.key.Some? && req.compareAndSet && req.version != 0
    ensures var k := env.keys.encode(req.key.value);
            var m := LastWrite(run, n, k);
            run.results[n] == Done(Status(true))
            <==> if k == env.HeadEntry() then log[n].index == req.version
                 else m.Some? && log[m.value].index == req.version && k in run.states[m.value + 1].db
  {
    var k := env.keys.encode(req.key.value);
    RunHistory(env, sched, log, run, k);
    HistoryVersion(run, log, n, k);
    assert Moment(env, sched(n), log[n], run.states[n], run.changes[n], run.results[n], run.states[n + 1]);
    CasResult(env, run.states[n], log[n], sched(n), req);
    CasFromVersion(run, log, n, k, req.version);
  }

  lemma CasFromVersion(run: Run, log: seq<LogRecord>, n: nat, k: ByteSeq, version: U64)
    requires run.Over(log) && n <= |log| && VersionAt(run, log, n, k) && version != 0
    ensures var m := LastWrite(run, n, k);
            CasHolds(run.states[n].db, k, version)
            <==> m.Some? && log[m.value].index == version && k in run.states[m.value + 1].db
  {
    var m := LastWrite(run, n, k);
    if m.Some? {
      assert Lookup(run.states[m.value + 1].db, k) == Lookup(run.states[n].db, k);
    }
  }

  // ----- Reclaim ---------------------------------------------------------------------------

  lemma EntryVersions(env: Env, s: FsmState, r: LogRecord, clock: Clock)
    requires r.index != 0
    requires forall k :: k in s.db ==> s.db[k].version <= r.index
    ensures forall k :: k in Applied(env, s, r, clock).db ==> Applied(env, s, r, clock).db[k].version <= r.index
  {
    var after := Applied(env, s, r, clock).db;
    forall k | k in after ensures after[k].version <= r.index {
      EntryOnKey(env, s, r, clock, k);
      assert Lookup(after, k) == Lookup(s.db, k) ==> k in s.db;
    }
  }

  ghost predicate VersionsUpTo(db: Db, bound: U64) {
    forall k :: k in db ==> db[k].version <= bound
  }

  ghost predicate BoundKept(run: Run, log: seq<LogRecord>) {
    && run.Over(log)
    && run.states[0].db == map[]
    && (forall i :: 0 <= i < |log| && VersionsUpTo(run.states[i].db, log[i].index) ==>
      VersionsUpTo(run.states[i + 1].db, log[i].index))
  }

  lemma RunBoundKept(env: Env, sched: Schedule, log: seq<LogRecord>, run: Run)
    requires IsRun(env, sched, START, log, run) && Increasing(0, log)
    ensures BoundKept(run, log)
  {
    forall i | 0 <= i < |log| && VersionsUpTo(run.states[i].db, log[i].index)
      ensures VersionsUpTo(run.states[i + 1].db, log[i].index)
    {
      assert Moment(env, sched(i), log[i], run.states[i], run.changes[i], run.results[i], run.states[i + 1]);
      EntryVersions(env, run.states[i], log[i], sched(i));
    }
  }

  /** No stored version is above the last applied index. */
  lemma {:induction false} VersionsBounded(run: Run, log: seq<LogRecord>, n: nat)
    requires BoundKept(run, log) && Increasing(0, log) && n <= |log|
    ensures VersionsUpTo(run.states[n].db, LastIndex(0, log[..n]))
  {
    if n > 0 {
      VersionsBounded(run, log, n - 1);
      assert LastIndex(0, log[..n - 1]) < log[n - 1].index;
    }
  }

  /** The items a scan of db returns after looking at its first n keys. */
  function ScanOf(db: Db, clock: Clock, n: nat): seq<ReclaimEntry>
    requires n <= |Ascending(db.Keys)|
  {
    Expired(db, Ascending(db.Keys), clock, n)
  }

  /** Reclaiming from db, which is s with its head entry h freshly stamped. */
  lemma ReclaimFrom(s: Db, db: Db, h: ByteSeq, es: seq<ReclaimEntry>)
    requires db.Keys == s.Keys + {h}
    requires forall k :: k != h ==> Lookup(db, k) == Lookup(s, k)
    requires forall e :: e in es ==> e.version < db[h].version
    ensures var cs := ReclaimChanges(db, es, |es|);
            var after := ApplyChanges(db, cs);
            && (forall k :: k in s && k !in after ==> k != h && ReclaimEntry(k, s[k].version) in es)
            && |cs| == |s.Keys - after.Keys|
  {
    var after := ApplyChanges(db, ReclaimChanges(db, es, |es|));
    ReclaimExact(db, es, |es|);
    assert es[..|es|] == es;
    assert !Listed(db, es, |es|, h);
    RemovedCount(s, db, after, h);
    forall k | k in s && k !in after ensures k != h && ReclaimEntry(k, s[k].version) in es {
      assert Listed(db, es, |es|, k);
      assert Lookup(db, k) == Lookup(s, k);
    }
  }

  lemma AppliedReclaim(env: Env, s: FsmState, r: LogRecord, clock: Clock, es: seq<ReclaimEntry>)
    requires env.decode(r.command) == Some(Reclaim(es))
    ensures var db := WithHead(env, s, r, clock).db;
            var cs := ReclaimChanges(db, es, |es|);
            && Applied(env, s, r, clock).db == ApplyChanges(db, cs)
            && ResultOf(env, s, r, clock) == Done(Reclaimed(|cs|))
  {
  }

  /** What one Reclaim entry takes out of a store, listed at versions below its own index. */
  lemma ReclaimEntryExact(env: Env, s: FsmState, r: LogRecord, clock: Clock, es: seq<ReclaimEntry>)
    requires r.index != 0
    requires env.decode(r.command) == Some(Reclaim(es))
    requires forall e :: e in es ==> e.version < r.index
    ensures var after := Applied(env, s, r, clock).db;
            && (forall k :: k in s.db && k !in after ==> k != env.HeadEntry() && ReclaimEntry(k, s.db[k].version) in es)
            && ResultOf(env, s, r, clock) == Done(Reclaimed(|s.db.Keys - after.Keys|))
  {
    AppliedReclaim(env, s, r, clock, es);
    HeadWrite(env, s, r, clock);
    ReclaimFrom(s.db, WithHead(env, s, r, clock).db, env.HeadEntry(), es);
  }

  lemma RemovedCount(s: Db, db: Db, after: Db, h: ByteSeq)
    requires db.Keys == s.Keys + {h} && after.Keys <= db.Keys && h in after
    ensures |s.Keys - after.Keys| == |db| - |after|
  {
    assert s.Keys - after.Keys == db.Keys - after.Keys;
    assert db.Keys == after.Keys + (db.Keys - after.Keys);
  }

  lemma ScanVersions(db: Db, clock: Clock, n: nat, bound: U64)
    requires n <= |Ascending(db.Keys)| && VersionsUpTo(db, bound)
    ensures forall e :: e in ScanOf(db, clock, n) ==> e.version <= bound
  {
    forall e | e in ScanOf(db, clock, n) ensures e.version <= bound {
      ExpiredSound(db, Ascending(db.Keys), clock, n, e.entryKey, e.version);
    }
  }

  ghost predicate SeenExpired(db: Db, clock: Clock, n: nat, k: ByteSeq)
    requires n <= |Ascending(db.Keys)|
  {
    k in db && exists p :: 0 <= p < n && Ascending(db.Keys)[p] == k && clock.expired(p, db[k].expiresAt)
  }

  lemma ReclaimSafeKey(run: Run, log: seq<LogRecord>, i: nat, j: nat, scan: Clock, scanned: nat, k: ByteSeq)
    requires KeyHistory(run, log, k) && Increasing(0, log) && i <= j <= |log|
    requires scanned <= |Ascending(run.states[i].db.Keys)|
    requires k in run.states[j].db
    requires ReclaimEntry(k, run.states[j].db[k].version) in ScanOf(run.states[i].db, scan, scanned)
    ensures SeenExpired(run.states[i].db, scan, scanned, k)
    ensures run.states[i].db[k] == run.states[j].db[k]
    ensures forall m :: i <= m < j ==> !Touched(run.changes[m], k)
  {
    var a, b := run.states[i].db, run.states[j].db;
    ExpiredSound(a, Ascending(a.Keys), scan, scanned, k, b[k].version);
    HistoryNoAba(run, log, i, j, k);
    assert Lookup(b, k) == Lookup(a, k);
  }

  lemma ReclaimInRun(env: Env, sched: Schedule, log: seq<LogRecord>, run: Run, i: nat, j: nat, scan: Clock,
                     scanned: nat)
    requires IsRun(env, sched, START, log, run) && Increasing(0, log) && i <= j < |log|
    requires scanned <= |Ascending(run.states[i].db.Keys)|
    requires env.decode(log[j].command) == Some(Reclaim(ScanOf(run.states[i].db, scan, scanned)))
    ensures run.results[j] == Done(Reclaimed(|run.states[j].db.Keys - run.states[j + 1].db.Keys|))
    ensures forall k :: k in run.states[j].db && k !in run.states[j + 1].db ==>
              k != env.HeadEntry()
                  && ReclaimEntry(k, run.states[j].db[k].version) in ScanOf(run.states[i].db, scan, scanned)
  {
    RunBoundKept(env, sched, log, run);
    VersionsBounded(run, log, i);
    ScanVersions(run.states[i].db, scan, scanned, LastIndex(0, log[..i]));
    assert Moment(env, sched(j), log[j], run.states[j], run.changes[j], run.results[j], run.states[j + 1]);
    ReclaimEntryExact(env, run.states[j], log[j], sched(j), ScanOf(run.states[i].db, scan, scanned));
  }

  /** The leader scans before entry i and its Reclaim is committed as entry j. Whatever entry j
      removes was expired when the scan saw it and is the identical entry the scan saw, so a
      key rewritten in between survives, and the answer is the number of keys that went. */
  lemma ReclaimSafe(env: Env, sched: Schedule, log: seq<LogRecord>, run: Run, i: nat, j: nat, scan: Clock, scanned: nat)
    requires IsRun(env, sched, START, log, run) && Increasing(0, log) && i <= j < |log|
    requires scanned <= |Ascending(run.states[i].db.Keys)|
    requires env.decode(log[j].command) == Some(Reclaim(ScanOf(run.states[i].db, scan, scanned)))
    ensures run.results[j] == Done(Reclaimed(|run.states[j].db.Keys - run.states[j + 1].db.Keys|))
    ensures forall k :: k in run.states[j].db && k !in run.states[j + 1].db ==>
              && SeenExpired(run.states[i].db, scan, scanned, k)
              && run.states[i].db[k] == run.states[j].db[k]
              && (forall m :: i <= m < j ==> !Touched(run.changes[m], k))
  {
    ReclaimInRun(env, sched, log, run, i, j, scan, scanned);
    forall k | k in run.states[j].db && k !in run.states[j + 1].db
      ensures SeenExpired(run.states[i].db, scan, scanned, k) && run.states[i].db[k] == run.states[j].db[k]
      ensures forall m :: i <= m < j ==> !Touched(run.changes[m], k)
    {
      RunHistory(env, sched, log, run, k);
      ReclaimSafeKey(run, log, i, j, scan, scanned, k);
    }
  }
}
