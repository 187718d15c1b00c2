/** The key-value service in front of the log: pkg/server/server.go.

    The node that accepts a write turns its relative TTL into an absolute expiry before the
    request enters the log, so that replicas never consult their own clocks. */
module Service {
  import opened Bytes
  import opened KeyCodec
  import opened Storage
  import opened StorageLaws
  import opened HashChain
  import opened Fsm
  import opened FsmLaws

  // ----- Stamping ----------------------------------------------------------------------------

  function StampRecord(r: RecordRequest, clock: Clock, reading: nat): RecordRequest {
    r.(expiresAt := ResolveExpiry(clock, reading, r.ttlSeconds, r.expiresAt))
  }

  function StampRecords(rs: seq<RecordRequest>, clock: Clock, n: nat): (out: seq<RecordRequest>)
    requires n <= |rs|
    ensures |out| == n
    ensures forall i :: 0 <= i < n ==> out[i] == StampRecord(rs[i], clock, i)
  {
    if n == 0 then [] else StampRecords(rs, clock, n - 1) + [StampRecord(rs[n - 1], clock, n - 1)]
  }

  /** What the service does to a request before it hands it on. */
  function Stamp(cmd: Command, clock: Clock): Command {
    match cmd
    case Put(r) => Put(StampRecord(r, clock, 0))
    case Touch(r) => Touch(StampRecord(r, clock, 0))
    case Increment(r) => Increment(r.(expiresAt := ResolveExpiry(clock, 0, r.ttlSeconds, r.expiresAt)))
    case Batch(rs) => Batch(StampRecords(rs, clock, |rs|))
    case _ => cmd
  }

  /** The loop of Batch, stamping the records where they are. */
  method StampBatch(records: array<RecordRequest>, clock: Clock)
    modifies records
    ensures records[..] == StampRecords(old(records[..]), clock, records.Length)
  {
    for i := 0 to records.Length
      invariant forall j :: 0 <= j < i ==> records[j] == StampRecord(old(records[j]), clock, j)
      invariant forall j :: i <= j < records.Length ==> records[j] == old(records[j])
    {
      records[i] := StampRecord(records[i], clock, i);
    }
  }

  predicate ExpiryFixed(ttlSeconds: I64, expiresAt: I64) {
    ttlSeconds > 0 ==> expiresAt != 0
  }

  /** Nothing in the command is left for a clock to decide. */
  predicate Stamped(cmd: Command) {
    match cmd
    case Put(r) => ExpiryFixed(r.ttlSeconds, r.expiresAt)
    case Touch(r) => ExpiryFixed(r.ttlSeconds, r.expiresAt)
    case Increment(r) => ExpiryFixed(r.ttlSeconds, r.expiresAt)
    case Batch(rs) => forall i :: 0 <= i < |rs| ==> ExpiryFixed(rs[i].ttlSeconds, rs[i].expiresAt)
    case _ => true
  }

  lemma StampStamps(cmd: Command, clock: Clock)
    requires clock.Sane()
    ensures Stamped(Stamp(cmd, clock))
  {
  }

  // ----- The clock of the replica does not matter ----------------------------------------------

  lemma {:induction false} BatchClockFree(codec: Codec, db: Db, rs: seq<RecordRequest>, commitVersion: U64, c: Clock,
                                          d: Clock, n: nat)
    requires n <= |rs| && Stamped(Batch(rs))
    requires forall i :: 0 <= i < n ==> rs[i].key.Some?
    ensures BatchChanges(codec, db, rs, commitVersion, c, n) == BatchChanges(codec, db, rs, commitVersion, d, n)
  {
    if n > 0 {
      BatchClockFree(codec, db, rs, commitVersion, c, d, n - 1);
      assert ExpiryFixed(rs[n - 1].ttlSeconds, rs[n - 1].expiresAt);
    }
  }

  lemma EffectClockFree(codec: Codec, db: Db, cmd: Command, commitVersion: U64, c: Clock, d: Clock)
    requires Stamped(cmd)
    ensures CommandEffect(codec, db, cmd, commitVersion, c) == CommandEffect(codec, db, cmd, commitVersion, d)
  {
    if cmd.Batch? && forall i :: 0 <= i < |cmd.records| ==> cmd.records[i].key.Some? {
      BatchClockFree(codec, db, cmd.records, commitVersion, c, d, |cmd.records|);
    }
  }

  lemma {:induction false} BatchStampedBy(codec: Codec, db: Db, rs: seq<RecordRequest>, commitVersion: U64, c: Clock,
                                          d: Clock, n: nat)
    requires n <= |rs| && c.Sane()
    requires forall i :: 0 <= i < n ==> rs[i].key.Some?
    ensures BatchChanges(codec, db, StampRecords(rs, c, |rs|), commitVersion, d, n) == BatchChanges(codec, db, rs,
        commitVersion, c, n)
  {
    if n > 0 {
      BatchStampedBy(codec, db, rs, commitVersion, c, d, n - 1);
    }
  }

  /** A replica that applies the stamped request under any clock stores what the original
      request stores under the clock that stamped it. */
  lemma LeaderClockDecides(codec: Codec, db: Db, cmd: Command, commitVersion: U64, leader: Clock, replica: Clock)
    requires leader.Sane()
    ensures CommandEffect(codec, db, Stamp(cmd, leader), commitVersion, replica)
            == CommandEffect(codec, db, cmd, commitVersion, leader)
  {
    if cmd.Batch? {
      var rs := cmd.records;
      var stamped := StampRecords(rs, leader, |rs|);
      assert forall i :: 0 <= i < |rs| ==> stamped[i].key == rs[i].key;
      if forall i :: 0 <= i < |rs| ==> rs[i].key.Some? {
        BatchStampedBy(codec, db, rs, commitVersion, leader, replica, |rs|);
      }
    }
  }

  /** An unconditional put is independent of the clock exactly when its expiry is fixed. */
  lemma ClockFreeExactly(codec: Codec, db: Db, r: RecordRequest, commitVersion: U64)
    requires r.key.Some? && !r.compareAndSet
    ensures (forall c: Clock, d: Clock ::
      PutEffect(codec, db, r, commitVersion, c) == PutEffect(codec, db, r, commitVersion, d))
            <==> ExpiryFixed(r.ttlSeconds, r.expiresAt)
  {
    if !ExpiryFixed(r.ttlSeconds, r.expiresAt) {
      var c := Clock((n: nat, ttl: I64) => 1, (n: nat, e: I64) => false);
      var d := Clock((n: nat, ttl: I64) => 2, (n: nat, e: I64) => false);
      assert PutEffect(codec, db, r, commitVersion, c).changes[0].entry.expiresAt == 1;
      assert PutEffect(codec, db, r, commitVersion, d).changes[0].entry.expiresAt == 2;
    }
  }

  // ----- Whole runs ------------------------------------------------------------------------------

  predicate StampedEntry(env: Env, r: LogRecord) {
    match env.decode(r.command)
    case None => true
    case Some(cmd) => Stamped(cmd)
  }

  lemma HeadClockFree(env: Env, s: FsmState, r: LogRecord, c: Clock, d: Clock)
    requires s.chain.Some? || s.db == map[]
    ensures WithHead(env, s, r, c) == WithHead(env, s, r, d)
  {
  }

  /** One entry has one outcome, whatever the replica's clock. */
  lemma EntryClockFree(env: Env, s: FsmState, r: LogRecord, c: Clock, d: Clock)
    requires s.chain.Some? || s.db == map[]
    requires StampedEntry(env, r)
    ensures Applied(env, s, r, c) == Applied(env, s, r, d)
    ensures ResultOf(env, s, r, c) == ResultOf(env, s, r, d)
    ensures Applied(env, s, r, c).chain.Some?
  {
    HeadClockFree(env, s, r, c, d);
    var cmd := env.decode(r.command);
    if cmd.Some? {
      EffectClockFree(env.keys, WithHead(env, s, r, c).db, cmd.value, r.index, c, d);
    }
  }

  /** Two replicas applying one stamped log under any two clocks hold the same store, give the
      same answers and stand at the same head after every entry. */
  lemma {:induction false} ClockIndependent(env: Env, a: Schedule, b: Schedule, log: seq<LogRecord>, x: Run, y: Run,
                                            n: nat)
    requires IsRun(env, a, START, log, x) && IsRun(env, b, START, log, y)
    requires forall i :: 0 <= i < |log| ==> StampedEntry(env, log[i])
    requires n <= |log|
    ensures x.states[n] == y.states[n]
    ensures x.states[n].chain.Some? || x.states[n].db == map[]
    ensures n > 0 ==> x.results[n - 1] == y.results[n - 1]
  {
    if n > 0 {
      var i := n - 1;
      ClockIndependent(env, a, b, log, x, y, i);
      RunStep(env, a, START, log, x, i);
      RunStep(env, b, START, log, y, i);
      EntryClockFree(env, x.states[i], log[i], a(i), b(i));
    }
  }

  /** The entry is a client request as the service wrote it into the log under a leader's clock. */
  ghost predicate FromService(cc: CommandCodec, r: LogRecord) {
    exists cmd: Command, leader: Clock :: leader.Sane() && r.command == EncodeCommand(cc, Stamp(cmd, leader))
  }

  lemma ServiceEntryStamped(env: Env, cc: CommandCodec, r: LogRecord)
    requires cc.Lossless() && env.decode == Decoder(cc) && FromService(cc, r)
    ensures StampedEntry(env, r)
  {
    var cmd: Command, leader: Clock :| leader.Sane() && r.command == EncodeCommand(cc, Stamp(cmd, leader));
    StampStamps(cmd, leader);
    CommandRoundTrip(cc, Stamp(cmd, leader));
  }

  /** Any log the service produced, under whatever leaders' clocks, replays alike everywhere. */
  lemma ServiceLogsAgree(env: Env, cc: CommandCodec, a: Schedule, b: Schedule, log: seq<LogRecord>, x: Run, y: Run,
                         n: nat)
    requires cc.Lossless() && env.decode == Decoder(cc)
    requires IsRun(env, a, START, log, x) && IsRun(env, b, START, log, y)
    requires forall i :: 0 <= i < |log| ==> FromService(cc, log[i])
    requires n <= |log|
    ensures x.states[n] == y.states[n]
    ensures n > 0 ==> x.results[n - 1] == y.results[n - 1]
  {
    forall i | 0 <= i < |log| ensures StampedEntry(env, log[i]) {
      ServiceEntryStamped(env, cc, log[i]);
    }
    ClockIndependent(env, a, b, log, x, y, n);
  }

  // ----- Watchers and scans of a replica -----------------------------------------------------------

  lemma EntryMirrored(env: Env, s: FsmState, r: LogRecord, clock: Clock)
    requires Mirror(s.hub) == View(s.db)
    ensures var t := Applied(env, s, r, clock); Mirror(t.hub) == View(t.db)
  {
    AppliedDb(env, s, r, clock);
    MirrorFollows(s.db, s.hub, EntryChanges(env, s, r, clock));
  }

  /** On every node, at every point, the watch events sent so far replay to the store. */
  lemma {:induction false} ReplicaWatchRefines(env: Env, sched: Schedule, log: seq<LogRecord>, run: Run, n: nat)
    requires IsRun(env, sched, START, log, run) && n <= |log|
    ensures Mirror(run.states[n].hub) == View(run.states[n].db)
  {
    if n > 0 {
      var i := n - 1;
      ReplicaWatchRefines(env, sched, log, run, i);
      RunStep(env, sched, START, log, run, i);
      EntryMirrored(env, run.states[i], log[i], sched(i));
    }
  }

  // A restore announces nothing, so a mirror fed by the hub may be left behind.

  function SeenAt(m: map<ByteSeq, Seen>, k: ByteSeq): Option<Seen> {
    if k in m then Some(m[k]) else None
  }

  /** The mirror has key k as the store has it. */
  predicate MirrorsKey(hub: seq<Event>, db: Db, k: ByteSeq) {
    SeenAt(Mirror(hub), k) == SeenAt(View(db), k)
  }

  lemma MirrorsOne(db: Db, hub: seq<Event>, c: Change, k: ByteSeq)
    ensures MirrorsKey(hub + [EventOf(c)], ApplyChange(db, c), k) <==> c.key == k || MirrorsKey(hub, db, k)
  {
    assert (hub + [EventOf(c)])[..|hub|] == hub;
  }

  lemma {:induction false} MirrorsAfter(db: Db, hub: seq<Event>, cs: seq<Change>, k: ByteSeq)
    ensures MirrorsKey(hub + Events(cs), ApplyChanges(db, cs), k) <==> Touched(cs, k) || MirrorsKey(hub, db, k)
  {
    if cs == [] {
      assert hub + Events(cs) == hub;
    } else {
      var rest, c := cs[..|cs| - 1], cs[|cs| - 1];
      MirrorsAfter(db, hub, rest, k);
      MirrorsOne(ApplyChanges(db, rest), hub + Events(rest), c, k);
      assert hub + Events(cs) == hub + Events(rest) + [EventOf(c)];
      TouchedSnoc(rest, c, k);
      assert cs == rest + [c];
    }
  }

  lemma MirrorStep(env: Env, sched: Schedule, start: FsmState, log: seq<LogRecord>, run: Run, m: nat, k: ByteSeq)
    requires IsRun(env, sched, start, log, run) && m < |log|
    ensures MirrorsKey(run.states[m + 1].hub, run.states[m + 1].db, k)
            <==> Touched(run.changes[m], k) || MirrorsKey(run.states[m].hub, run.states[m].db, k)
  {
    RunStep(env, sched, start, log, run, m);
    AppliedDb(env, run.states[m], log[m], sched(m));
    MirrorsAfter(run.states[m].db, run.states[m].hub, run.changes[m], k);
  }

  /** After a restore into a running node the mirror has a key right exactly when the snapshot held
      it as the store did, or an entry has touched it since. */
  lemma {:induction false} RestoredWatchExactly(env: Env, sched: Schedule, s: FsmState, snapshot: Db,
                                                log: seq<LogRecord>, run: Run, n: nat, k: ByteSeq)
    requires Mirror(s.hub) == View(s.db)
    requires IsRun(env, sched, s.(db := snapshot), log, run) && n <= |log|
    ensures MirrorsKey(run.states[n].hub, run.states[n].db, k)
            <==> || SeenAt(View(snapshot), k) == SeenAt(View(s.db), k)
                 || exists i :: 0 <= i < n && Touched(run.changes[i], k)
  {
    if n > 0 {
      var m := n - 1;
      RestoredWatchExactly(env, sched, s, snapshot, log, run, m, k);
      MirrorStep(env, sched, s.(db := snapshot), log, run, m, k);
    }
  }

  lemma EntryKeepsEncoded(env: Env, s: FsmState, r: LogRecord, clock: Clock)
    requires KeysEncoded(env.keys, s.db)
    ensures KeysEncoded(env.keys, Applied(env, s, r, clock).db)
  {
    var head := Advanced(env.hash, CurrentHead(env, s, clock), r);
    CommandKeepsEncoded(env.keys, s.db, Put(HeadRequest(env, head)), r.index, clock);
    var cmd := env.decode(r.command);
    if cmd.Some? {
      CommandKeepsEncoded(env.keys, WithHead(env, s, r, clock).db, cmd.value, r.index, clock);
    }
  }

  /** So a replica whose codec decodes what it encodes can scan its store at any point: every key it
      meets decodes. */
  lemma ReplicaScansDecode(env: Env, sched: Schedule, log: seq<LogRecord>, run: Run, n: nat)
    requires IsRun(env, sched, START, log, run) && n <= |log| && env.keys.Lossless()
    ensures Decodable(env.keys, run.states[n].db)
    ensures forall k :: k in run.states[n].db ==> env.keys.decode(k).Ok?
  {
    ReplicaKeysEncoded(env, sched, log, run, n);
    EncodedDecodable(env.keys, run.states[n].db);
    forall k | k in run.states[n].db ensures env.keys.decode(k).Ok? {
      DecodesStored(env.keys, run.states[n].db, k);
    }
  }

  /** Every key a replica ever stores is an encoded key. */
  lemma {:induction false} ReplicaKeysEncoded(env: Env, sched: Schedule, log: seq<LogRecord>, run: Run, n: nat)
    requires IsRun(env, sched, START, log, run) && n <= |log|
    ensures KeysEncoded(env.keys, run.states[n].db)
  {
    if n > 0 {
      var i := n - 1;
      ReplicaKeysEncoded(env, sched, log, run, i);
      RunStep(env, sched, START, log, run, i);
      EntryKeepsEncoded(env, run.states[i], log[i], sched(i));
    }
  }
}
