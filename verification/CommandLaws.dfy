/** What each command does, told by the store before it, the store after it and its answer: on the
    storage, and for every entry of every replicated run. */
module CommandLaws {
  import opened Bytes
  import opened KeyCodec
  import opened Storage
  import opened StorageLaws
  import opened HashChain
  import opened Fsm
  import opened FsmLaws

  // ----- Parts of a write ------------------------------------------------------------------------

  /** An absolute expiry is kept, a TTL is counted from the clock, and neither means never. */
  predicate Expires(clock: Clock, reading: nat, ttlSeconds: I64, expiresAt: I64, e: I64) {
    && (expiresAt != 0 ==> e == expiresAt)
    && (expiresAt == 0 && ttlSeconds > 0 ==> e == clock.expiryAfter(reading, ttlSeconds))
    && (expiresAt == 0 && ttlSeconds <= 0 ==> e == 0)
  }

  /** The version after so many writes to k: the log index, or raft-off the key's own count. */
  predicate Stamped(db: Db, k: ByteSeq, writes: nat, commitVersion: U64, version: U64) {
    if commitVersion != 0 then version == commitVersion
    else version == ((if k in db then db[k].version else 0) + writes) % TWO_TO_64
  }

  /** The record stands under k, as the last of so many writes to k. */
  predicate Holds(db: Db, after: Db, k: ByteSeq, r: RecordRequest, writes: nat, commitVersion: U64, clock: Clock,
                  reading: nat) {
    && k in after && after[k].value == r.value && after[k].meta == r.metadata % 256
    && Expires(clock, reading, r.ttlSeconds, r.expiresAt, after[k].expiresAt)
    && Stamped(db, k, writes, commitVersion, after[k].version)
  }

  ghost predicate OthersKept(db: Db, after: Db, k: ByteSeq) {
    forall x :: x != k ==> Lookup(after, x) == Lookup(db, x)
  }

  /** Equal as 64-bit integers. */
  predicate Same64(a: int, b: int) {
    (a - b) % TWO_TO_64 == 0
  }

  // ----- What each command does ---------------------------------------------------------------------

  ghost predicate PutDoes(codec: Codec, db: Db, r: RecordRequest, commitVersion: U64, clock: Clock, after: Db,
                          reply: Reply) {
    match r.key
    case None => after == db && reply == EmptyKey
    case Some(key) =>
      var k := codec.encode(key);
      var met := !r.compareAndSet || (if k in db then db[k].version == r.version else r.version == 0);
      && reply == Status(met) && OthersKept(db, after, k)
      && (if met then Holds(db, after, k, r, 1, commitVersion, clock, 0) else Lookup(after, k) == Lookup(db, k))
  }

  ghost predicate TouchDoes(codec: Codec, db: Db, r: RecordRequest, commitVersion: U64, clock: Clock, after: Db,
                            reply: Reply) {
    match r.key
    case None => after == db && reply == EmptyKey
    case Some(key) =>
      var k := codec.encode(key);
      && reply == Status(k in db) && OthersKept(db, after, k) && (k in after <==> k in db)
      && (k in db ==>
            && after[k].value == db[k].value && after[k].meta == db[k].meta
            && Expires(clock, 0, r.ttlSeconds, r.expiresAt, after[k].expiresAt)
            && Stamped(db, k, 1, commitVersion, after[k].version))
  }

  ghost predicate RemoveDoes(codec: Codec, db: Db, key: Option<Key>, after: Db, reply: Reply) {
    match key
    case None => after == db && reply == EmptyKey
    case Some(key) =>
      var k := codec.encode(key);
      reply == Status(true) && OthersKept(db, after, k) && k !in after
  }

  /** The counter before is the stored number, or the request's initial value where there is none;
      the counter after is the sum, stored as eight bytes. */
  ghost predicate IncrementDoes(codec: Codec, db: Db, r: IncrementRequest, commitVersion: U64, clock: Clock, after: Db,
                                reply: Reply) {
    match r.key
    case None => after == db && reply == EmptyKey
    case Some(key) =>
      var k := codec.encode(key);
      && reply.Counter? && OthersKept(db, after, k) && k in after
      && (if k in db && |db[k].value| >= 8 then Same64(reply.previous, Uint(db[k].value[..8]))
          else reply.previous == r.initial)
      && Same64(reply.current, reply.previous + r.delta)
      && |after[k].value| == 8 && Same64(reply.current, Uint(after[k].value)) && after[k].meta == 0
      && Expires(clock, 0, r.ttlSeconds, r.expiresAt, after[k].expiresAt)
      && Stamped(db, k, 1, commitVersion, after[k].version) && reply.version == after[k].version
  }

  /** How many of the first n records name k. */
  function Namings(codec: Codec, rs: seq<RecordRequest>, n: nat, k: ByteSeq): nat
    requires n <= |rs|
  {
    if n == 0 then 0 else Namings(codec, rs, n - 1, k) + if Names(codec, rs[n - 1].key, k) then 1 else 0
  }

  /** Record i is the last of the first n that names k. */
  ghost predicate LastNaming(codec: Codec, rs: seq<RecordRequest>, n: nat, k: ByteSeq, i: nat)
    requires n <= |rs|
  {
    i < n && Names(codec, rs[i].key, k) && forall j :: i < j < n ==> !Names(codec, rs[j].key, k)
  }

  /** Each key holds the last record that names it; a key no record names is as it was. */
  ghost predicate BatchAt(codec: Codec, db: Db, rs: seq<RecordRequest>, n: nat, commitVersion: U64, clock: Clock,
                          after: Db, k: ByteSeq)
    requires n <= |rs|
  {
    && ((forall i :: 0 <= i < n ==> !Names(codec, rs[i].key, k)) ==> Lookup(after, k) == Lookup(db, k))
    && (forall i :: 0 <= i < n && LastNaming(codec, rs, n, k, i) ==>
          Holds(db, after, k, rs[i], Namings(codec, rs, n, k), commitVersion, clock, i))
  }

  ghost predicate BatchDoes(codec: Codec, db: Db, rs: seq<RecordRequest>, commitVersion: U64, clock: Clock, after: Db,
                            reply: Reply) {
    if exists i :: 0 <= i < |rs| && rs[i].key.None? then after == db && reply == EmptyKey
    else reply == Status(true) && forall k :: BatchAt(codec, db, rs, |rs|, commitVersion, clock, after, k)
  }

  /** What is listed at its stored version goes, and nothing else. */
  ghost predicate ReclaimDoes(db: Db, es: seq<ReclaimEntry>, after: Db, reply: Reply) {
    && (forall k :: k in after <==> k in db && ReclaimEntry(k, db[k].version) !in es)
    && (forall k :: k in after ==> after[k] == db[k])
    && reply == Reclaimed(|db.Keys - after.Keys|)
  }

  ghost predicate Does(codec: Codec, db: Db, cmd: Command, commitVersion: U64, clock: Clock, after: Db, reply: Reply) {
    match cmd
    case Put(r) => PutDoes(codec, db, r, commitVersion, clock, after, reply)
    case Touch(r) => TouchDoes(codec, db, r, commitVersion, clock, after, reply)
    case Remove(key) => RemoveDoes(codec, db, key, after, reply)
    case Increment(r) => IncrementDoes(codec, db, r, commitVersion, clock, after, reply)
    case Batch(rs) => BatchDoes(codec, db, rs, commitVersion, clock, after, reply)
    case Reclaim(es) => ReclaimDoes(db, es, after, reply)
  }

  // ----- On the storage ------------------------------------------------------------------------------

  lemma OneChange(db: Db, c: Change)
    ensures var after := ApplyChanges(db, [c]);
            OthersKept(db, after, c.key) && Lookup(after, c.key) == if c.SetEntry? then Some(c.entry) else None
  {
    ApplyOne(db, c);
  }

  lemma PutExact(codec: Codec, db: Db, r: RecordRequest, commitVersion: U64, clock: Clock)
    ensures var f := PutEffect(codec, db, r, commitVersion, clock);
            PutDoes(codec, db, r, commitVersion, clock, ApplyChanges(db, f.changes), f.reply)
  {
    var f := PutEffect(codec, db, r, commitVersion, clock);
    if f.changes != [] {
      OneChange(db, f.changes[0]);
    }
  }

  lemma TouchExact(codec: Codec, db: Db, r: RecordRequest, commitVersion: U64, clock: Clock)
    ensures var f := TouchEffect(codec, db, r, commitVersion, clock);
            TouchDoes(codec, db, r, commitVersion, clock, ApplyChanges(db, f.changes), f.reply)
  {
    var f := TouchEffect(codec, db, r, commitVersion, clock);
    if f.changes != [] {
      OneChange(db, f.changes[0]);
    }
  }

  lemma RemoveExact(codec: Codec, db: Db, key: Option<Key>)
    ensures var f := RemoveEffect(codec, key); RemoveDoes(codec, db, key, ApplyChanges(db, f.changes), f.reply)
  {
    var f := RemoveEffect(codec, key);
    if f.changes != [] {
      OneChange(db, f.changes[0]);
    }
  }

  lemma WrapSame(x: int)
    ensures Same64(Wrap(x), x)
  {
    var h := 0x8000_0000_0000_0000;
    assert Wrap(x) - x == -((x + h) / TWO_TO_64) * TWO_TO_64;
    assert (-((x + h) / TWO_TO_64) * TWO_TO_64) % TWO_TO_64 == 0;
  }

  lemma ModSame(c: int)
    ensures Same64(c, c % TWO_TO_64)
  {
    assert c - c % TWO_TO_64 == (c / TWO_TO_64) * TWO_TO_64;
    assert ((c / TWO_TO_64) * TWO_TO_64) % TWO_TO_64 == 0;
  }

  lemma BytesSame(c: I64)
    ensures |CounterBytes(c)| == 8 && Same64(c, Uint(CounterBytes(c)))
  {
    UintOfU64(c % TWO_TO_64);
    ModSame(c);
  }

  lemma IncrementExact(codec: Codec, db: Db, r: IncrementRequest, commitVersion: U64, clock: Clock)
    ensures var f := IncrementEffect(codec, db, r, commitVersion, clock);
            IncrementDoes(codec, db, r, commitVersion, clock, ApplyChanges(db, f.changes), f.reply)
  {
    var f := IncrementEffect(codec, db, r, commitVersion, clock);
    if r.key.Some? {
      var k := codec.encode(r.key.value);
      OneChange(db, f.changes[0]);
      WrapSame(f.reply.previous + r.delta);
      BytesSame(f.reply.current);
      if k in db && |db[k].value| >= 8 {
        WrapSame(Uint(db[k].value[..8]));
      }
    }
  }

  lemma CountOn(version: nat, writes: nat)
    ensures ((version + writes) % TWO_TO_64 + 1) % TWO_TO_64 == (version + (writes + 1)) % TWO_TO_64
  {
  }

  /** Raft-off, each write to k has counted it up by one. */
  ghost predicate CountedUp(codec: Codec, db: Db, rs: seq<RecordRequest>, n: nat, after: Db, k: ByteSeq)
    requires n <= |rs|
  {
    OldVersion(after, k) == (OldVersion(db, k) + Namings(codec, rs, n, k)) % TWO_TO_64
  }

  lemma BatchPasses(codec: Codec, db: Db, rs: seq<RecordRequest>, n: nat, commitVersion: U64, clock: Clock,
                    before: Db, after: Db, k: ByteSeq)
    requires n < |rs| && !Names(codec, rs[n].key, k) && Lookup(after, k) == Lookup(before, k)
    requires BatchAt(codec, db, rs, n, commitVersion, clock, before, k)
    ensures BatchAt(codec, db, rs, n + 1, commitVersion, clock, after, k)
  {
    assert Namings(codec, rs, n + 1, k) == Namings(codec, rs, n, k);
    forall i | 0 <= i < n + 1 && LastNaming(codec, rs, n + 1, k, i)
      ensures Holds(db, after, k, rs[i], Namings(codec, rs, n, k), commitVersion, clock, i)
    {
      assert LastNaming(codec, rs, n, k, i);
    }
  }

  lemma WriteCounts(codec: Codec, db: Db, rs: seq<RecordRequest>, n: nat, before: Db, k: ByteSeq)
    requires n < |rs| && Names(codec, rs[n].key, k) && CountedUp(codec, db, rs, n, before, k)
    ensures (OldVersion(before, k) + 1) % TWO_TO_64 == (OldVersion(db, k) + Namings(codec, rs, n + 1, k)) % TWO_TO_64
  {
    CountOn(OldVersion(db, k), Namings(codec, rs, n, k));
    assert Namings(codec, rs, n + 1, k) == Namings(codec, rs, n, k) + 1;
  }

  lemma BatchWrites(codec: Codec, db: Db, rs: seq<RecordRequest>, n: nat, commitVersion: U64, clock: Clock,
                    before: Db, after: Db, k: ByteSeq)
    requires n < |rs| && Names(codec, rs[n].key, k) && (commitVersion == 0 ==> CountedUp(codec, db, rs, n, before, k))
    requires Lookup(after, k) == Some(PutChange(before, k, rs[n], commitVersion, clock, n).entry)
    ensures BatchAt(codec, db, rs, n + 1, commitVersion, clock, after, k)
  {
    var writes := Namings(codec, rs, n + 1, k);
    if commitVersion == 0 {
      WriteCounts(codec, db, rs, n, before, k);
    }
    assert Holds(db, after, k, rs[n], writes, commitVersion, clock, n);
  }

  function BatchedTo(codec: Codec, db: Db, rs: seq<RecordRequest>, commitVersion: U64, clock: Clock, n: nat): Db
    requires n <= |rs| && forall i :: 0 <= i < |rs| ==> rs[i].key.Some?
  {
    ApplyChanges(db, BatchChanges(codec, db, rs, commitVersion, clock, n))
  }

  lemma BatchedOne(codec: Codec, db: Db, rs: seq<RecordRequest>, commitVersion: U64, clock: Clock, n: nat, k: ByteSeq)
    requires n < |rs| && forall i :: 0 <= i < |rs| ==> rs[i].key.Some?
    ensures var before := BatchedTo(codec, db, rs, commitVersion, clock, n);
            var x := codec.encode(rs[n].key.value);
            Lookup(BatchedTo(codec, db, rs, commitVersion, clock, n + 1), k)
            == if k == x then Some(PutChange(before, k, rs[n], commitVersion, clock, n).entry) else Lookup(before, k)
  {
    BatchStep(codec, db, rs, commitVersion, clock, n);
  }

  lemma CountOne(codec: Codec, db: Db, rs: seq<RecordRequest>, n: nat, clock: Clock, before: Db, after: Db, k: ByteSeq)
    requires n < |rs| && rs[n].key.Some? && CountedUp(codec, db, rs, n, before, k)
    requires var x := codec.encode(rs[n].key.value);
             Lookup(after, k) == if k == x then Some(PutChange(before, k, rs[n], 0, clock, n).entry)
                                 else Lookup(before, k)
    ensures CountedUp(codec, db, rs, n + 1, after, k)
  {
    if Names(codec, rs[n].key, k) {
      WriteCounts(codec, db, rs, n, before, k);
    } else {
      assert Namings(codec, rs, n + 1, k) == Namings(codec, rs, n, k);
      assert OldVersion(after, k) == OldVersion(before, k);
    }
  }

  lemma {:induction false} BatchCounts(codec: Codec, db: Db, rs: seq<RecordRequest>, clock: Clock, n: nat, k: ByteSeq)
    requires n <= |rs| && forall i :: 0 <= i < |rs| ==> rs[i].key.Some?
    ensures CountedUp(codec, db, rs, n, BatchedTo(codec, db, rs, 0, clock, n), k)
  {
    if n > 0 {
      var m := n - 1;
      BatchCounts(codec, db, rs, clock, m, k);
      BatchedOne(codec, db, rs, 0, clock, m, k);
      CountOne(codec, db, rs, m, clock, BatchedTo(codec, db, rs, 0, clock, m),
               BatchedTo(codec, db, rs, 0, clock, n), k);
    }
  }

  lemma {:induction false} BatchPlaces(codec: Codec, db: Db, rs: seq<RecordRequest>, commitVersion: U64, clock: Clock,
                                       n: nat, k: ByteSeq)
    requires n <= |rs| && forall i :: 0 <= i < |rs| ==> rs[i].key.Some?
    ensures BatchAt(codec, db, rs, n, commitVersion, clock, BatchedTo(codec, db, rs, commitVersion, clock, n), k)
  {
    if n > 0 {
      var m := n - 1;
      var before := BatchedTo(codec, db, rs, commitVersion, clock, m);
      var after := BatchedTo(codec, db, rs, commitVersion, clock, n);
      BatchedOne(codec, db, rs, commitVersion, clock, m, k);
      if Names(codec, rs[m].key, k) {
        if commitVersion == 0 {
          BatchCounts(codec, db, rs, clock, m, k);
        }
        BatchWrites(codec, db, rs, m, commitVersion, clock, before, after, k);
      } else {
        BatchPlaces(codec, db, rs, commitVersion, clock, m, k);
        BatchPasses(codec, db, rs, m, commitVersion, clock, before, after, k);
      }
    }
  }

  lemma BatchExact(codec: Codec, db: Db, rs: seq<RecordRequest>, commitVersion: U64, clock: Clock)
    ensures var f := BatchEffect(codec, db, rs, commitVersion, clock);
            BatchDoes(codec, db, rs, commitVersion, clock, ApplyChanges(db, f.changes), f.reply)
  {
    if forall i :: 0 <= i < |rs| ==> rs[i].key.Some? {
      var after := BatchedTo(codec, db, rs, commitVersion, clock, |rs|);
      forall k ensures BatchAt(codec, db, rs, |rs|, commitVersion, clock, after, k) {
        BatchPlaces(codec, db, rs, commitVersion, clock, |rs|, k);
      }
    }
  }

  lemma ReclaimedExact(db: Db, es: seq<ReclaimEntry>)
    ensures var f := ReclaimEffect(db, es); ReclaimDoes(db, es, ApplyChanges(db, f.changes), f.reply)
  {
    var after := ApplyChanges(db, ReclaimChanges(db, es, |es|));
    ReclaimExact(db, es, |es|);
    assert es[..|es|] == es;
    assert forall k :: k in after <==> k in db && !Listed(db, es, |es|, k);
    assert db.Keys == after.Keys + (db.Keys - after.Keys);
  }

  /** Whatever the store holds, each command does what is said of it above, on the replicated path
      and raft-off. */
  lemma CommandExact(codec: Codec, db: Db, cmd: Command, commitVersion: U64, clock: Clock)
    ensures var f := CommandEffect(codec, db, cmd, commitVersion, clock);
            Does(codec, db, cmd, commitVersion, clock, ApplyChanges(db, f.changes), f.reply)
  {
    match cmd
    case Put(r) => PutExact(codec, db, r, commitVersion, clock);
    case Touch(r) => TouchExact(codec, db, r, commitVersion, clock);
    case Remove(key) => RemoveExact(codec, db, key);
    case Increment(r) => IncrementExact(codec, db, r, commitVersion, clock);
    case Batch(rs) => BatchExact(codec, db, rs, commitVersion, clock);
    case Reclaim(es) => ReclaimedExact(db, es);
  }

  // ----- In a replicated run ----------------------------------------------------------------------------

  /** The store an entry's command meets: the entry's own head stored, at its index. */
  function WithHeadStored(env: Env, db: Db, index: U64, head: ChainHead): Db {
    db[env.HeadEntry() := Entry(index, 0, env.heads.pack(head), 0)]
  }

  lemma HeadStored(env: Env, s: FsmState, r: LogRecord, clock: Clock)
    requires r.index != 0
    ensures Applied(env, s, r, clock).chain.Some?
    ensures WithHead(env, s, r, clock).db
            == WithHeadStored(env, s.db, r.index, Applied(env, s, r, clock).chain.value)
  {
    var head := Advanced(env.hash, CurrentHead(env, s, clock), r);
    ApplyOne(s.db, PutChange(s.db, env.HeadEntry(), HeadRequest(env, head), r.index, clock, 0));
  }

  /** Entry r took the store from db to after with head in force, and answered res. */
  ghost predicate EntryDoes(env: Env, r: LogRecord, clock: Clock, db: Db, head: ChainHead, after: Db, res: FsmResult) {
    var met := WithHeadStored(env, db, r.index, head);
    match env.decode(r.command)
    case None => res == Undecodable && after == met
    case Some(cmd) => res.Done? && Does(env.keys, met, cmd, r.index, clock, after, res.reply)
  }

  lemma EntryExact(env: Env, s: FsmState, r: LogRecord, clock: Clock)
    requires r.index != 0
    ensures var t := Applied(env, s, r, clock);
            t.chain.Some? && EntryDoes(env, r, clock, s.db, t.chain.value, t.db, ResultOf(env, s, r, clock))
  {
    HeadStored(env, s, r, clock);
    if env.decode(r.command).Some? {
      CommandExact(env.keys, WithHead(env, s, r, clock).db, env.decode(r.command).value, r.index, clock);
    }
  }

  /** In every run every entry stores its head, then does what its command says at its own index;
      one that does not decode does nothing else. */
  lemma RunExact(env: Env, sched: Schedule, start: FsmState, log: seq<LogRecord>, run: Run, n: nat)
    requires IsRun(env, sched, start, log, run) && n < |log| && log[n].index != 0
    ensures var s, t := run.states[n], run.states[n + 1];
            t.chain.Some? && EntryDoes(env, log[n], sched(n), s.db, t.chain.value, t.db, run.results[n])
  {
    RunStep(env, sched, start, log, run, n);
    EntryExact(env, run.states[n], log[n], sched(n));
  }
}
