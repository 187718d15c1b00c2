/** What the storage operations promise together: watch events replay to the state, a batch
    is the fold of its puts, counters add up, reclaim removes only what it was shown, and an
    area scan returns exactly the area. */
module StorageLaws {
  import opened Bytes
  import opened KeyCodec
  import opened OrderedKeys
  import opened Storage

  // ----- Which keys a command can reach -----------------------------------------

  predicate Names(codec: Codec, key: Option<Key>, k: ByteSeq) {
    key.Some? && codec.encode(key.value) == k
  }

  /** The command mentions k as one of the keys it works on. */
  predicate Addresses(codec: Codec, cmd: Command, k: ByteSeq) {
    match cmd
    case Put(r) => Names(codec, r.key, k)
    case Touch(r) => Names(codec, r.key, k)
    case Remove(key) => Names(codec, key, k)
    case Increment(r) => Names(codec, r.key, k)
    case Batch(rs) => exists r :: r in rs && Names(codec, r.key, k)
    case Reclaim(es) => Mentions(es, |es|, k)
  }

  predicate Mentions(es: seq<ReclaimEntry>, n: nat, k: ByteSeq)
    requires n <= |es|
  {
    exists i :: 0 <= i < n && es[i].entryKey == k
  }

  predicate Touched(cs: seq<Change>, k: ByteSeq) {
    exists i :: 0 <= i < |cs| && cs[i].key == k
  }

  lemma TouchedSnoc(cs: seq<Change>, c: Change, k: ByteSeq)
    ensures Touched(cs + [c], k) <==> Touched(cs, k) || c.key == k
  {
    var all := cs + [c];
    assert all[|cs|] == c && forall i :: 0 <= i < |cs| ==> all[i] == cs[i];
  }

  lemma {:induction false} UntouchedKept(db: Db, cs: seq<Change>, k: ByteSeq)
    requires !Touched(cs, k)
    ensures Lookup(ApplyChanges(db, cs), k) == Lookup(db, k)
  {
    if cs != [] {
      var rest := cs[..|cs| - 1];
      assert forall i :: 0 <= i < |rest| ==> rest[i] == cs[i];
      UntouchedKept(db, rest, k);
      assert cs[|cs| - 1].key != k;
    }
  }

  ghost predicate FromBatch(codec: Codec, rs: seq<RecordRequest>, commitVersion: U64, c: Change) {
    && c.SetEntry?
    && (exists r :: r in rs && Names(codec, r.key, c.key))
    && (commitVersion != 0 ==> c.entry.version == commitVersion)
  }

  lemma {:induction false} BatchKeys(codec: Codec, db: Db, rs: seq<RecordRequest>, commitVersion: U64, clock: Clock,
                                     n: nat)
    requires n <= |rs|
    requires forall i :: 0 <= i < n ==> rs[i].key.Some?
    ensures forall c :: c in BatchChanges(codec, db, rs, commitVersion, clock, n) ==>
      FromBatch(codec, rs, commitVersion, c)
  {
    if n > 0 {
      BatchKeys(codec, db, rs, commitVersion, clock, n - 1);
      var before := ApplyChanges(db, BatchChanges(codec, db, rs, commitVersion, clock, n - 1));
      var r := rs[n - 1];
      assert r in rs && Names(codec, r.key, codec.encode(r.key.value));
      assert FromBatch(codec, rs, commitVersion, PutChange(before, codec.encode(r.key.value), r, commitVersion,
          clock, n - 1));
    }
  }

  lemma {:induction false} ReclaimKeys(db: Db, es: seq<ReclaimEntry>, n: nat)
    requires n <= |es|
    ensures forall c :: c in ReclaimChanges(db, es, n) ==> c.DeleteKey? && Mentions(es, n, c.key)
  {
    if n > 0 {
      ReclaimKeys(db, es, n - 1);
      assert es[n - 1].entryKey == es[n - 1].entryKey && Mentions(es, n, es[n - 1].entryKey);
      forall k | Mentions(es, n - 1, k) ensures Mentions(es, n, k) {
      }
    }
  }

  /** Every change a command makes is to a key it addresses, and on the replicated path every
      entry it writes carries the log index. */
  lemma ChangesOfCommand(codec: Codec, db: Db, cmd: Command, commitVersion: U64, clock: Clock, c: Change)
    requires c in CommandEffect(codec, db, cmd, commitVersion, clock).changes
    ensures Addresses(codec, cmd, c.key)
    ensures c.SetEntry? && commitVersion != 0 ==> c.entry.version == commitVersion
    ensures c.SetEntry? ==> exists key :: c.key == codec.encode(key)
  {
    match cmd
    case Batch(rs) =>
      BatchKeys(codec, db, rs, commitVersion, clock, |rs|);
      assert FromBatch(codec, rs, commitVersion, c);
    case Reclaim(es) =>
      ReclaimKeys(db, es, |es|);
    case _ =>
  }

  /** A command leaves alone every key it does not address. */
  lemma UnaddressedKept(codec: Codec, db: Db, cmd: Command, commitVersion: U64, clock: Clock, k: ByteSeq)
    requires !Addresses(codec, cmd, k)
    ensures var cs := CommandEffect(codec, db, cmd, commitVersion, clock).changes;
            !Touched(cs, k) && Lookup(ApplyChanges(db, cs), k) == Lookup(db, k)
  {
    var cs := CommandEffect(codec, db, cmd, commitVersion, clock).changes;
    forall i | 0 <= i < |cs| ensures cs[i].key != k {
      ChangesOfCommand(codec, db, cmd, commitVersion, clock, cs[i]);
    }
    UntouchedKept(db, cs, k);
  }

  /** The last change to a key decides it. */
  lemma {:induction false} TouchedVersion(db: Db, cs: seq<Change>, k: ByteSeq, index: U64)
    requires Touched(cs, k)
    requires forall c :: c in cs && c.SetEntry? ==> c.entry.version == index
    ensures k in ApplyChanges(db, cs) ==> ApplyChanges(db, cs)[k].version == index
  {
    var last := cs[|cs| - 1];
    var rest := cs[..|cs| - 1];
    if last.key != k {
      var i :| 0 <= i < |cs| && cs[i].key == k;
      assert rest[i].key == k;
      TouchedVersion(db, rest, k, index);
    } else {
      assert last in cs;
    }
  }

  // ----- Stored keys are encoded keys --------------------------------------------

  lemma {:induction false} ApplyKeepsEncoded(codec: Codec, db: Db, cs: seq<Change>)
    requires KeysEncoded(codec, db)
    requires forall c :: c in cs && c.SetEntry? ==> exists key :: c.key == codec.encode(key)
    ensures KeysEncoded(codec, ApplyChanges(db, cs))
  {
    if cs != [] {
      ApplyKeepsEncoded(codec, db, cs[..|cs| - 1]);
      assert cs[|cs| - 1] in cs;
    }
  }

  /** No command puts a key into the store that EncodeKey did not make. */
  lemma CommandKeepsEncoded(codec: Codec, db: Db, cmd: Command, commitVersion: U64, clock: Clock)
    requires KeysEncoded(codec, db)
    ensures KeysEncoded(codec, ApplyChanges(db, CommandEffect(codec, db, cmd, commitVersion, clock).changes))
  {
    var cs := CommandEffect(codec, db, cmd, commitVersion, clock).changes;
    forall c | c in cs && c.SetEntry? ensures exists key :: c.key == codec.encode(key) {
      ChangesOfCommand(codec, db, cmd, commitVersion, clock, c);
    }
    ApplyKeepsEncoded(codec, db, cs);
  }

  lemma EncodedDecodable(codec: Codec, db: Db)
    requires codec.Lossless() && KeysEncoded(codec, db)
    ensures Decodable(codec, db)
  {
    forall k | k in db ensures !codec.decode(k).Panicked? {
      DecodesStored(codec, db, k);
    }
  }

  // ----- Runs of storage operations -----------------------------------------------

  datatype Op = Op(cmd: Command, commitVersion: U64, clock: Clock)

  datatype State = State(db: Db, hub: seq<Event>)

  const EMPTY: State := State(map[], [])

  function Commit(s: State, cs: seq<Change>): State {
    State(ApplyChanges(s.db, cs), s.hub + Events(cs))
  }

  lemma CommitSnoc(s: State, cs: seq<Change>, c: Change)
    ensures Commit(s, cs + [c]) == Commit(Commit(s, cs), [c])
  {
    ApplySnoc(s.db, cs, c);
    ApplyOne(Commit(s, cs).db, c);
  }

  function Step(codec: Codec, s: State, op: Op): State {
    Commit(s, CommandEffect(codec, s.db, op.cmd, op.commitVersion, op.clock).changes)
  }

  /** The state after the first n operations. */
  function Run(codec: Codec, s: State, ops: seq<Op>, n: nat): State
    requires n <= |ops|
  {
    if n == 0 then s else Step(codec, Run(codec, s, ops, n - 1), ops[n - 1])
  }

  // ----- Watch events refine state --------------------------------------------------

  datatype Seen = Seen(value: ByteSeq, version: U64)

  /** A watcher that keeps a copy of what it was told. */
  function Mirror(events: seq<Event>): map<ByteSeq, Seen> {
    if events == [] then map[]
    else
      var m := Mirror(events[..|events| - 1]);
      match events[|events| - 1]
      case WatchSet(k, v, version) => m[k := Seen(v, version)]
      case WatchDelete(k) => m - {k}
  }

  function View(db: Db): map<ByteSeq, Seen> {
    map k | k in db :: Seen(db[k].value, db[k].version)
  }

  lemma MirrorOne(db: Db, hub: seq<Event>, c: Change)
    requires Mirror(hub) == View(db)
    ensures Mirror(hub + [EventOf(c)]) == View(ApplyChange(db, c))
  {
    assert (hub + [EventOf(c)])[..|hub|] == hub;
  }

  lemma {:induction false} MirrorFollows(db: Db, hub: seq<Event>, cs: seq<Change>)
    requires Mirror(hub) == View(db)
    ensures Mirror(hub + Events(cs)) == View(ApplyChanges(db, cs))
  {
    if cs == [] {
      assert hub + Events(cs) == hub;
    } else {
      var rest, c := cs[..|cs| - 1], cs[|cs| - 1];
      MirrorFollows(db, hub, rest);
      MirrorOne(ApplyChanges(db, rest), hub + Events(rest), c);
      assert hub + Events(cs) == hub + Events(rest) + [EventOf(c)];
    }
  }

  /** After any run, replaying the notifications into an empty mirror gives exactly the
      stored values and versions: nothing is announced that did not commit, and nothing
      commits unannounced. */
  lemma {:induction false} WatchRefinesState(codec: Codec, ops: seq<Op>, n: nat)
    requires n <= |ops|
    ensures var s := Run(codec, EMPTY, ops, n); Mirror(s.hub) == View(s.db)
  {
    if n > 0 {
      WatchRefinesState(codec, ops, n - 1);
      var s := Run(codec, EMPTY, ops, n - 1);
      var op := ops[n - 1];
      MirrorFollows(s.db, s.hub, CommandEffect(codec, s.db, op.cmd, op.commitVersion, op.clock).changes);
    }
  }

  // ----- A batch is the fold of its puts ----------------------------------------------

  /** The clock from its nth reading on. */
  function Later(clock: Clock, n: nat): Clock {
    Clock((i: nat, ttl: I64) => clock.expiryAfter(n + i, ttl), (i: nat, e: I64) => clock.expired(n + i, e))
  }

  /** The first n records put one at a time, without their compare-and-set condition. */
  function PutEach(codec: Codec, s: State, rs: seq<RecordRequest>, commitVersion: U64, clock: Clock, n: nat): State
    requires n <= |rs|
  {
    if n == 0 then s
    else
      var before := PutEach(codec, s, rs, commitVersion, clock, n - 1);
      var put := rs[n - 1].(compareAndSet := false);
      Commit(before, PutEffect(codec, before.db, put, commitVersion, Later(clock, n - 1)).changes)
  }

  lemma PutStep(codec: Codec, s: State, r: RecordRequest, commitVersion: U64, clock: Clock, n: nat)
    requires r.key.Some?
    ensures var c := PutChange(s.db, codec.encode(r.key.value), r, commitVersion, clock, n);
            PutEffect(codec, s.db, r.(compareAndSet := false), commitVersion, Later(clock, n)).changes == [c]
  {
  }

  lemma {:induction false} BatchPrefixIsPuts(codec: Codec, s: State, rs: seq<RecordRequest>, commitVersion: U64,
                                             clock: Clock, n: nat)
    requires n <= |rs|
    requires forall i :: 0 <= i < |rs| ==> rs[i].key.Some?
    ensures PutEach(codec, s, rs, commitVersion, clock, n) == Commit(s, BatchChanges(codec, s.db, rs, commitVersion,
        clock, n))
  {
    if n > 0 {
      BatchPrefixIsPuts(codec, s, rs, commitVersion, clock, n - 1);
      BatchStep(codec, s.db, rs, commitVersion, clock, n - 1);
      var before := PutEach(codec, s, rs, commitVersion, clock, n - 1);
      PutStep(codec, before, rs[n - 1], commitVersion, clock, n - 1);
      CommitSnoc(s, BatchChanges(codec, s.db, rs, commitVersion, clock, n - 1),
                 PutChange(before.db, codec.encode(rs[n - 1].key.value), rs[n - 1], commitVersion, clock, n - 1));
    }
  }

  /** SetBatch does what its records would do as unconditional puts in order, in the store
      and on the hub, at the shared log index or, raft-off, counting each key up by one; a
      record without a key leaves both as they were. */
  lemma BatchIsFoldOfPuts(codec: Codec, s: State, rs: seq<RecordRequest>, commitVersion: U64, clock: Clock)
    ensures var eff := BatchEffect(codec, s.db, rs, commitVersion, clock);
            if forall i :: 0 <= i < |rs| ==> rs[i].key.Some?
            then Commit(s, eff.changes) == PutEach(codec, s, rs, commitVersion, clock, |rs|)
                && eff.reply == Status(true)
            else Commit(s, eff.changes) == s && eff.reply == EmptyKey
  {
    if forall i :: 0 <= i < |rs| ==> rs[i].key.Some? {
      BatchPrefixIsPuts(codec, s, rs, commitVersion, clock, |rs|);
    }
  }

  // ----- Counters ------------------------------------------------------------------------

  predicate IncrementsKey(codec: Codec, cmd: Command, k: ByteSeq) {
    cmd.Increment? && Names(codec, cmd.increment.key, k)
  }

  /** The first increment's start value plus every delta, as plain integers; None before the first. */
  function Total(codec: Codec, ops: seq<Op>, k: ByteSeq, n: nat): Option<int>
    requires n <= |ops|
  {
    if n == 0 then None
    else
      var t := Total(codec, ops, k, n - 1);
      var cmd := ops[n - 1].cmd;
      if !IncrementsKey(codec, cmd, k) then t
      else Some((if t.None? then cmd.increment.initial as int else t.value) + cmd.increment.delta)
  }

  lemma WrapWrap(x: int, d: int)
    ensures Wrap(Wrap(x) + d) == Wrap(x + d)
  {
    var h := 0x8000_0000_0000_0000;
    var q := (x + h) / TWO_TO_64;
    assert Wrap(x) == x - q * TWO_TO_64;
    assert (x + d + h) % TWO_TO_64 == (x - q * TWO_TO_64 + d + h) % TWO_TO_64;
  }

  lemma WrapBack(c: I64)
    ensures Wrap(c % TWO_TO_64) == c
  {
    var u := c % TWO_TO_64;
    assert u == c || u == c + TWO_TO_64;
  }

  lemma CounterRoundTrip(c: I64, fallback: I64)
    ensures CounterOf(CounterBytes(c), fallback) == c
  {
    assert CounterBytes(c)[..8] == CounterBytes(c);
    UintOfU64(c % TWO_TO_64);
    WrapBack(c);
  }

  ghost predicate OnlyIncremented(codec: Codec, ops: seq<Op>, k: ByteSeq) {
    forall i :: 0 <= i < |ops| ==> IncrementsKey(codec, ops[i].cmd, k) || !Addresses(codec, ops[i].cmd, k)
  }

  /** What an increment stores and answers when the running sum so far is t. */
  lemma IncrementStep(codec: Codec, db: Db, op: Op, k: ByteSeq, t: Option<int>)
    requires IncrementsKey(codec, op.cmd, k)
    requires if t.None? then k !in db else k in db && db[k].value == CounterBytes(Wrap(t.value))
    ensures var inc := op.cmd.increment;
            var t' := (if t.None? then inc.initial as int else t.value) + inc.delta;
            var eff := CommandEffect(codec, db, op.cmd, op.commitVersion, op.clock);
            && |eff.changes| == 1 && eff.changes[0].SetEntry? && eff.changes[0].key == k
            && eff.changes[0].entry.value == CounterBytes(Wrap(t'))
            && eff.reply.Counter?
            && eff.reply.previous == (if t.None? then inc.initial else Wrap(t.value))
            && eff.reply.current == Wrap(t')
  {
    if t.Some? {
      CounterRoundTrip(Wrap(t.value), op.cmd.increment.initial);
      WrapWrap(t.value, op.cmd.increment.delta);
    }
  }

  /** In a run where k starts absent and only Increment reaches it, the stored eight bytes are
      the first Initial plus all deltas modulo 2^64, however often the sum wrapped. */
  lemma {:induction false} CounterIsSum(codec: Codec, s: State, ops: seq<Op>, k: ByteSeq, n: nat)
    requires n <= |ops|
    requires k !in s.db && OnlyIncremented(codec, ops, k)
    ensures var t := Total(codec, ops, k, n);
            var db := Run(codec, s, ops, n).db;
            if t.None? then k !in db else k in db && db[k].value == CounterBytes(Wrap(t.value))
  {
    if n > 0 {
      CounterIsSum(codec, s, ops, k, n - 1);
      var db := Run(codec, s, ops, n - 1).db;
      var op := ops[n - 1];
      if IncrementsKey(codec, op.cmd, k) {
        IncrementStep(codec, db, op, k, Total(codec, ops, k, n - 1));
        var cs := CommandEffect(codec, db, op.cmd, op.commitVersion, op.clock).changes;
        assert cs == [cs[0]];
        ApplyOne(db, cs[0]);
      } else {
        UnaddressedKept(codec, db, op.cmd, op.commitVersion, op.clock, k);
        assert Lookup(db, k) == Lookup(Run(codec, s, ops, n).db, k);
      }
    }
  }

  /** Each increment answers with the running sum before and after it, so Previous is the
      Current of the increment before. */
  lemma IncrementReply(codec: Codec, s: State, ops: seq<Op>, k: ByteSeq, n: nat)
    requires n < |ops|
    requires k !in s.db && OnlyIncremented(codec, ops, k)
    requires IncrementsKey(codec, ops[n].cmd, k)
    ensures var t := Total(codec, ops, k, n);
            var op := ops[n];
            var reply := CommandEffect(codec, Run(codec, s, ops, n).db, op.cmd, op.commitVersion, op.clock).reply;
            && reply.Counter?
            && reply.previous == (if t.None? then op.cmd.increment.initial else Wrap(t.value))
            && reply.current == Wrap(Total(codec, ops, k, n + 1).value)
  {
    CounterIsSum(codec, s, ops, k, n);
    IncrementStep(codec, Run(codec, s, ops, n).db, ops[n], k, Total(codec, ops, k, n));
  }

  // ----- Reclaim ------------------------------------------------------------------------

  /** Some item among the first n names k at exactly its stored version. */
  predicate Listed(db: Db, es: seq<ReclaimEntry>, n: nat, k: ByteSeq)
    requires n <= |es|
  {
    k in db && ReclaimEntry(k, db[k].version) in es[..n]
  }

  lemma ListedStep(db: Db, es: seq<ReclaimEntry>, n: nat, k: ByteSeq)
    requires n < |es|
    ensures Listed(db, es, n + 1, k)
            <==> Listed(db, es, n, k) || (k == es[n].entryKey && k in db && db[k].version == es[n].version)
  {
    assert es[..n + 1] == es[..n] + [es[n]];
  }

  lemma RemovalShrinks(db: Db, k: ByteSeq)
    requires k in db
    ensures |db - {k}| == |db| - 1
  {
    var after := db - {k};
    assert db.Keys == after.Keys + {k};
  }

  ghost predicate ReclaimedBy(db: Db, es: seq<ReclaimEntry>, n: nat, after: Db)
    requires n <= |es|
  {
    && (forall k :: k in after <==> k in db && !Listed(db, es, n, k))
    && (forall k :: k in after ==> after[k] == db[k])
  }

  predicate Matches(db: Db, e: ReclaimEntry) {
    e.entryKey in db && db[e.entryKey].version == e.version
  }

  function ReclaimOne(db: Db, e: ReclaimEntry): Db {
    if Matches(db, e) then db - {e.entryKey} else db
  }

  lemma ReclaimOneListed(db: Db, es: seq<ReclaimEntry>, n: nat, before: Db)
    requires n < |es| && ReclaimedBy(db, es, n, before)
    ensures ReclaimedBy(db, es, n + 1, ReclaimOne(before, es[n]))
  {
    forall k ensures k in ReclaimOne(before, es[n]) <==> k in db && !Listed(db, es, n + 1, k) {
      ListedStep(db, es, n, k);
    }
  }

  lemma ReclaimUnfold(db: Db, es: seq<ReclaimEntry>, n: nat)
    requires n < |es|
    ensures var cs := ReclaimChanges(db, es, n);
            ReclaimChanges(db, es, n + 1)
            == if Matches(ApplyChanges(db, cs), es[n]) then cs + [DeleteKey(es[n].entryKey)] else cs
  {
  }

  lemma ReclaimStep(db: Db, es: seq<ReclaimEntry>, n: nat)
    requires n < |es|
    ensures ApplyChanges(db, ReclaimChanges(db, es, n + 1))
            == ReclaimOne(ApplyChanges(db, ReclaimChanges(db, es, n)), es[n])
  {
    ReclaimUnfold(db, es, n);
    var cs := ReclaimChanges(db, es, n);
    if Matches(ApplyChanges(db, cs), es[n]) {
      ApplySnoc(db, cs, DeleteKey(es[n].entryKey));
    }
  }

  /** Reclaim removes exactly the keys listed at their stored version, touches no other
      entry, and its count is the drop in store size however often an item is repeated. */
  lemma ReclaimExact(db: Db, es: seq<ReclaimEntry>, n: nat)
    requires n <= |es|
    ensures var cs := ReclaimChanges(db, es, n);
            ReclaimedBy(db, es, n, ApplyChanges(db, cs)) && |cs| == |db| - |ApplyChanges(db, cs)|
  {
    ReclaimListed(db, es, n);
    ReclaimCounts(db, es, n);
  }

  lemma {:induction false} ReclaimListed(db: Db, es: seq<ReclaimEntry>, n: nat)
    requires n <= |es|
    ensures ReclaimedBy(db, es, n, ApplyChanges(db, ReclaimChanges(db, es, n)))
  {
    if n > 0 {
      var m := n - 1;
      ReclaimListed(db, es, m);
      ReclaimStep(db, es, m);
      ReclaimOneListed(db, es, m, ApplyChanges(db, ReclaimChanges(db, es, m)));
    }
  }

  lemma {:induction false} ReclaimCounts(db: Db, es: seq<ReclaimEntry>, n: nat)
    requires n <= |es|
    ensures var cs := ReclaimChanges(db, es, n); |cs| == |db| - |ApplyChanges(db, cs)|
  {
    if n > 0 {
      var m := n - 1;
      ReclaimCounts(db, es, m);
      ReclaimStep(db, es, m);
      ReclaimUnfold(db, es, m);
      var before := ApplyChanges(db, ReclaimChanges(db, es, m));
      if Matches(before, es[m]) {
        RemovalShrinks(before, es[m].entryKey);
      }
    }
  }

  /** What a scan lists was expired, at the listed version, when the scan passed it. */
  lemma {:induction false} ExpiredSound(db: Db, keys: seq<ByteSeq>, clock: Clock, n: nat, k: ByteSeq, v: U64)
    requires n <= |keys|
    requires forall i :: 0 <= i < |keys| ==> keys[i] in db
    requires ReclaimEntry(k, v) in Expired(db, keys, clock, n)
    ensures k in db && db[k].version == v
    ensures exists i :: 0 <= i < n && keys[i] == k && clock.expired(i, db[k].expiresAt)
  {
    var rest := Expired(db, keys, clock, n - 1);
    if ReclaimEntry(k, v) in rest {
      ExpiredSound(db, keys, clock, n - 1, k, v);
    } else {
      assert keys[n - 1] == k;
    }
  }

  /** A scan passes over no expired entry. */
  lemma {:induction false} ExpiredComplete(db: Db, keys: seq<ByteSeq>, clock: Clock, n: nat, i: nat)
    requires i < n <= |keys|
    requires forall i :: 0 <= i < |keys| ==> keys[i] in db
    requires clock.expired(i, db[keys[i]].expiresAt)
    ensures ReclaimEntry(keys[i], db[keys[i]].version) in Expired(db, keys, clock, n)
  {
    if i < n - 1 {
      ExpiredComplete(db, keys, clock, n - 1, i);
    }
  }

  // ----- An area scan returns the area ---------------------------------------------------

  /** r shows the entry: its head, and its value unless only heads were asked for. */
  predicate Shows(r: Record, key: Key, e: Entry, headOnly: bool) {
    && r.key == key && r.head.Some?
    && r.head.value.version == e.version && r.head.value.expiresAt == e.expiresAt && r.head.value.meta == e.meta
    && r.value == if headOnly then [] else e.value
  }

  /** A read shows what is stored under the key and has not expired; of a key that is absent or
      expired it shows nothing but the key itself. */
  lemma GetExact(codec: Codec, db: Db, key: Key, headOnly: bool, clock: Clock)
    ensures var r, k := GetRecord(codec, db, key, headOnly, clock), codec.encode(key);
            if k in db && !clock.expired(0, db[k].expiresAt) then Shows(r, key, db[k], headOnly)
            else r.key == key && r.head.None? && r.value == []
  {
  }

  /** r is what the scan shows for the key it meets, unexpired, at position i. */
  ghost predicate ShownAt(codec: Codec, db: Db, keys: seq<ByteSeq>, headOnly: bool, clock: Clock, i: nat, r: Record)
    requires i < |keys|
  {
    && keys[i] in db
    && codec.decode(keys[i]) == Ok(r.key)
    && !clock.expired(i, db[keys[i]].expiresAt)
    && Shows(r, r.key, db[keys[i]], headOnly)
  }

  ghost predicate Shown(codec: Codec, db: Db, keys: seq<ByteSeq>, headOnly: bool, clock: Clock, n: nat, r: Record)
    requires n <= |keys|
  {
    exists i :: 0 <= i < n && ShownAt(codec, db, keys, headOnly, clock, i, r)
  }

  lemma ShownStep(codec: Codec, db: Db, keys: seq<ByteSeq>, headOnly: bool, clock: Clock, n: nat, r: Record)
    requires n < |keys|
    ensures Shown(codec, db, keys, headOnly, clock, n + 1, r)
            <==> Shown(codec, db, keys, headOnly, clock, n, r) || ShownAt(codec, db, keys, headOnly, clock, n, r)
  {
  }

  lemma {:induction false} VisibleExact(codec: Codec, db: Db, keys: seq<ByteSeq>, headOnly: bool, clock: Clock,
                                        n: nat, r: Record)
    requires n <= |keys|
    requires forall i :: 0 <= i < |keys| ==> keys[i] in db
    ensures r in Visible(codec, db, keys, headOnly, clock, n) <==> Shown(codec, db, keys, headOnly, clock, n, r)
  {
    if n > 0 {
      VisibleExact(codec, db, keys, headOnly, clock, n - 1, r);
      ShownStep(codec, db, keys, headOnly, clock, n - 1, r);
    }
  }

  /** Every key met decodes, and to a key that encodes back to it. */
  ghost predicate Faithful(codec: Codec, keys: seq<ByteSeq>) {
    forall i :: 0 <= i < |keys| ==> codec.decode(keys[i]).Ok? && codec.encode(codec.decode(keys[i]).key) == keys[i]
  }

  ghost predicate KeyOrdered(less: (ByteSeq, ByteSeq) -> bool, codec: Codec, rs: seq<Record>) {
    forall i, j :: 0 <= i < j < |rs| ==> less(codec.encode(rs[i].key), codec.encode(rs[j].key))
  }

  lemma {:induction false} VisibleOrdered(less: (ByteSeq, ByteSeq) -> bool, codec: Codec, db: Db, keys: seq<ByteSeq>,
                                          headOnly: bool, clock: Clock, n: nat)
    requires n <= |keys| && Ascends(less, keys) && Faithful(codec, keys)
    requires forall i :: 0 <= i < |keys| ==> keys[i] in db
    ensures KeyOrdered(less, codec, Visible(codec, db, keys, headOnly, clock, n))
  {
    if n > 0 {
      VisibleOrdered(less, codec, db, keys, headOnly, clock, n - 1);
      var rest := Visible(codec, db, keys, headOnly, clock, n - 1);
      forall i | 0 <= i < |rest| ensures less(codec.encode(rest[i].key), keys[n - 1]) {
        VisibleExact(codec, db, keys, headOnly, clock, n - 1, rest[i]);
      }
    }
  }

  /** The blocks of GetArea, joined, are the stored records of that area that are not expired
      when the scan meets them: all of them, no others, each once, in key order. */
  lemma AreaExact(uuid: UuidCodec, db: Db, p: Key, last: Field, headOnly: bool, clock: Clock)
    requires uuid.Lossless() && KeysEncoded(Physical(uuid), db)
    requires PrefixBytes(uuid, p, last).Some?
    ensures var codec := Physical(uuid);
            var keys := AscendingUnder(db.Keys, PrefixBytes(uuid, p, last).value);
            var rs := Visible(codec, db, keys, headOnly, clock, |keys|);
            && KeyOrdered(LexLess, codec, rs)
            && (forall r :: r in rs <==> Shown(codec, db, keys, headOnly, clock, |keys|, r))
            && (forall k: Key :: codec.encode(k) in keys <==> codec.encode(k) in db && InArea(p, last, k))
  {
    var codec := Physical(uuid);
    var keys := AscendingUnder(db.Keys, PrefixBytes(uuid, p, last).value);
    assert Faithful(codec, keys) by {
      PhysicalLossless(uuid);
      forall i | 0 <= i < |keys| ensures codec.decode(keys[i]).Ok?
          && codec.encode(codec.decode(keys[i]).key) == keys[i] {
        DecodesStored(codec, db, keys[i]);
      }
    }
    forall r ensures r in Visible(codec, db, keys, headOnly, clock, |keys|)
                     <==> Shown(codec, db, keys, headOnly, clock, |keys|, r) {
      VisibleExact(codec, db, keys, headOnly, clock, |keys|, r);
    }
    VisibleOrdered(LexLess, codec, db, keys, headOnly, clock, |keys|);
    forall k: Key ensures codec.encode(k) in keys <==> codec.encode(k) in db && InArea(p, last, k) {
      PrefixExact(uuid, p, last, k);
    }
  }
}
