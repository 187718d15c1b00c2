/** The versioned key-value store: pkg/server/storage.go.

    Every write stores an envelope (version, expiry, value). The version is the raft log
    index on the replicated path and a per-key counter when commitVersion is 0. Expiry is
    never a reason to delete: it only hides an entry from reads. Each write that commits
    is announced to the watch hub. */
module Storage {
  import opened Bytes
  import opened KeyCodec
  import opened OrderedKeys

  datatype Entry = Entry(version: U64, expiresAt: I64, value: ByteSeq, meta: Byte)

  type Db = map<ByteSeq, Entry>

  /** The wall clock as one storage call sees it. A call may read the clock several times:
      the first argument numbers the reading. */
  datatype Clock = Clock(expiryAfter: (nat, I64) -> I64, expired: (nat, I64) -> bool) {
    /** Expiry 0 means never, so no positive TTL resolves to it. */
    ghost predicate Sane() {
      && (forall n: nat :: !expired(n, 0))
      && (forall n: nat, ttl: I64 :: ttl > 0 ==> expiryAfter(n, ttl) != 0)
    }
  }

  datatype RecordRequest = RecordRequest(key: Option<Key>, value: ByteSeq, metadata: int, ttlSeconds: I64,
                                         compareAndSet: bool, version: U64, expiresAt: I64)

  datatype IncrementRequest = IncrementRequest(key: Option<Key>, initial: I64, delta: I64, ttlSeconds: I64,
                                               expiresAt: I64)

  datatype ReclaimEntry = ReclaimEntry(entryKey: ByteSeq, version: U64)

  datatype Reply =
    | Status(updated: bool)
    | Counter(previous: I64, current: I64, version: U64)
    | Reclaimed(removed: nat)
    | EmptyKey

  datatype Event = WatchSet(key: ByteSeq, value: ByteSeq, version: U64) | WatchDelete(key: ByteSeq)

  /** What a committed transaction did to one key. */
  datatype Change = SetEntry(key: ByteSeq, entry: Entry) | DeleteKey(key: ByteSeq)

  function Lookup(db: Db, k: ByteSeq): Option<Entry> {
    if k in db then Some(db[k]) else None
  }

  function ApplyChange(db: Db, c: Change): Db {
    match c
    case SetEntry(k, e) => db[k := e]
    case DeleteKey(k) => db - {k}
  }

  function ApplyChanges(db: Db, cs: seq<Change>): Db {
    if cs == [] then db else ApplyChange(ApplyChanges(db, cs[..|cs| - 1]), cs[|cs| - 1])
  }

  function EventOf(c: Change): Event {
    match c
    case SetEntry(k, e) => WatchSet(k, e.value, e.version)
    case DeleteKey(k) => WatchDelete(k)
  }

  function Events(cs: seq<Change>): seq<Event> {
    if cs == [] then [] else Events(cs[..|cs| - 1]) + [EventOf(cs[|cs| - 1])]
  }

  // ----- What each operation does -------------------------------------------------

  datatype Effect = Effect(changes: seq<Change>, reply: Reply)

  function ResolveExpiry(clock: Clock, reading: nat, ttlSeconds: I64, expiresAt: I64): I64 {
    if expiresAt != 0 then expiresAt
    else if ttlSeconds > 0 then clock.expiryAfter(reading, ttlSeconds)
    else 0
  }

  function OldVersion(db: Db, k: ByteSeq): U64 {
    if k in db then db[k].version else 0
  }

  function NextVersion(commitVersion: U64, stored: U64): U64 {
    if commitVersion != 0 then commitVersion else (stored + 1) % TWO_TO_64
  }

  /** version 0 asks for an absent key, any other for exactly that stored version. */
  predicate CasHolds(db: Db, k: ByteSeq, version: U64) {
    if k in db then version == db[k].version else version == 0
  }

  function PutChange(db: Db, k: ByteSeq, req: RecordRequest, commitVersion: U64, clock: Clock, reading: nat): Change {
    SetEntry(k, Entry(NextVersion(commitVersion, OldVersion(db, k)),
                      ResolveExpiry(clock, reading, req.ttlSeconds, req.expiresAt),
                      req.value, req.metadata % 256))
  }

  function PutEffect(codec: Codec, db: Db, req: RecordRequest, commitVersion: U64, clock: Clock): Effect {
    if req.key.None? then Effect([], EmptyKey)
    else
      var k := codec.encode(req.key.value);
      if req.compareAndSet && !CasHolds(db, k, req.version) then Effect([], Status(false))
      else Effect([PutChange(db, k, req, commitVersion, clock, 0)], Status(true))
  }

  function TouchEffect(codec: Codec, db: Db, req: RecordRequest, commitVersion: U64, clock: Clock): Effect {
    if req.key.None? then Effect([], EmptyKey)
    else
      var k := codec.encode(req.key.value);
      if k !in db then Effect([], Status(false))
      else Effect([SetEntry(k, Entry(NextVersion(commitVersion, db[k].version),
                                     ResolveExpiry(clock, 0, req.ttlSeconds, req.expiresAt),
                                     db[k].value, db[k].meta))], Status(true))
  }

  function RemoveEffect(codec: Codec, key: Option<Key>): Effect {
    if key.None? then Effect([], EmptyKey)
    else Effect([DeleteKey(codec.encode(key.value))], Status(true))
  }

  /** int64 addition: the sum modulo 2^64, read as a signed number. */
  function Wrap(x: int): I64 {
    (x + 0x8000_0000_0000_0000) % TWO_TO_64 - 0x8000_0000_0000_0000
  }

  function CounterBytes(c: I64): ByteSeq {
    BigEndian(c % TWO_TO_64, 8)
  }

  /** A payload shorter than eight bytes is not a counter: the fallback stands in. */
  function CounterOf(value: ByteSeq, fallback: I64): I64 {
    if |value| >= 8 then Wrap(Uint(value[..8])) else fallback
  }

  function IncrementEffect(codec: Codec, db: Db, req: IncrementRequest, commitVersion: U64, clock: Clock): Effect {
    if req.key.None? then Effect([], EmptyKey)
    else
      var k := codec.encode(req.key.value);
      var prev := if k in db then CounterOf(db[k].value, req.initial) else req.initial;
      var counter := Wrap(prev + req.delta);
      var version := NextVersion(commitVersion, OldVersion(db, k));
      Effect([SetEntry(k, Entry(version, ResolveExpiry(clock, 0, req.ttlSeconds, req.expiresAt),
                                CounterBytes(counter), 0))],
             Counter(prev, counter, version))
  }

  /** The writes of the first n records: each sees those before it. */
  function BatchChanges(codec: Codec, db: Db, records: seq<RecordRequest>, commitVersion: U64, clock: Clock, n: nat)
    : (cs: seq<Change>)
    requires n <= |records|
    requires forall i :: 0 <= i < n ==> records[i].key.Some?
    ensures |cs| == n
  {
    if n == 0 then []
    else
      var cs := BatchChanges(codec, db, records, commitVersion, clock, n - 1);
      cs + [PutChange(ApplyChanges(db, cs), codec.encode(records[n - 1].key.value), records[n - 1],
                      commitVersion, clock, n - 1)]
  }

  function BatchEffect(codec: Codec, db: Db, records: seq<RecordRequest>, commitVersion: U64, clock: Clock): Effect {
    if forall i :: 0 <= i < |records| ==> records[i].key.Some?
    then Effect(BatchChanges(codec, db, records, commitVersion, clock, |records|), Status(true))
    else Effect([], EmptyKey)
  }

  /** The deletes of the first n items: an item goes only if its stored version is still the listed one. */
  function ReclaimChanges(db: Db, entries: seq<ReclaimEntry>, n: nat): (cs: seq<Change>)
    requires n <= |entries|
  {
    if n == 0 then []
    else
      var cs := ReclaimChanges(db, entries, n - 1);
      var e := entries[n - 1];
      var now := ApplyChanges(db, cs);
      if e.entryKey in now && now[e.entryKey].version == e.version then cs + [DeleteKey(e.entryKey)] else cs
  }

  function ReclaimEffect(db: Db, entries: seq<ReclaimEntry>): Effect {
    var cs := ReclaimChanges(db, entries, |entries|);
    Effect(cs, Reclaimed(|cs|))
  }

  datatype Command =
    | Put(record: RecordRequest)
    | Touch(record: RecordRequest)
    | Remove(key: Option<Key>)
    | Increment(increment: IncrementRequest)
    | Batch(records: seq<RecordRequest>)
    | Reclaim(entries: seq<ReclaimEntry>)

  function CommandEffect(codec: Codec, db: Db, cmd: Command, commitVersion: U64, clock: Clock): Effect {
    match cmd
    case Put(r) => PutEffect(codec, db, r, commitVersion, clock)
    case Touch(r) => TouchEffect(codec, db, r, commitVersion, clock)
    case Remove(key) => RemoveEffect(codec, key)
    case Increment(r) => IncrementEffect(codec, db, r, commitVersion, clock)
    case Batch(rs) => BatchEffect(codec, db, rs, commitVersion, clock)
    case Reclaim(es) => ReclaimEffect(db, es)
  }

  lemma ApplySnoc(db: Db, cs: seq<Change>, c: Change)
    ensures ApplyChanges(db, cs + [c]) == ApplyChange(ApplyChanges(db, cs), c)
    ensures Events(cs + [c]) == Events(cs) + [EventOf(c)]
  {
    assert (cs + [c])[..|cs|] == cs;
  }

  lemma {:induction false} ApplyConcat(db: Db, a: seq<Change>, b: seq<Change>)
    ensures ApplyChanges(db, a + b) == ApplyChanges(ApplyChanges(db, a), b)
    ensures Events(a + b) == Events(a) + Events(b)
  {
    if b == [] {
      assert a + b == a;
    } else {
      var init, c := b[..|b| - 1], b[|b| - 1];
      ApplyConcat(db, a, init);
      ApplySnoc(db, a + init, c);
      assert a + b == a + init + [c];
    }
  }

  lemma ApplyOne(db: Db, c: Change)
    ensures ApplyChanges(db, [c]) == ApplyChange(db, c)
    ensures Events([c]) == [EventOf(c)]
  {
    ApplySnoc(db, [], c);
    assert [] + [c] == [c];
  }

  lemma BatchStep(codec: Codec, db: Db, records: seq<RecordRequest>, commitVersion: U64, clock: Clock, n: nat)
    requires n < |records|
    requires forall i :: 0 <= i <= n ==> records[i].key.Some?
    ensures var cs := BatchChanges(codec, db, records, commitVersion, clock, n);
            var cs' := BatchChanges(codec, db, records, commitVersion, clock, n + 1);
            var c := PutChange(ApplyChanges(db, cs), codec.encode(records[n].key.value), records[n],
                               commitVersion, clock, n);
            && cs' == cs + [c]
            && ApplyChanges(db, cs') == ApplyChange(ApplyChanges(db, cs), c)
            && Events(cs') == Events(cs) + [EventOf(c)]
  {
    var cs := BatchChanges(codec, db, records, commitVersion, clock, n);
    ApplySnoc(db, cs, PutChange(ApplyChanges(db, cs), codec.encode(records[n].key.value), records[n],
                                commitVersion, clock, n));
  }

  // ----- Reads ------------------------------------------------------------------

  datatype Head = Head(version: U64, expiresAt: I64, meta: Byte)

  /** head is None exactly when nothing visible is stored under the key. */
  datatype Record = Record(key: Key, head: Option<Head>, value: ByteSeq)

  function NotFound(key: Key): Record {
    Record(key, None, [])
  }

  /** Expired entries are hidden, not removed. */
  function FetchRecord(key: Key, e: Entry, headOnly: bool, clock: Clock, reading: nat): Record {
    if clock.expired(reading, e.expiresAt) then NotFound(key)
    else Record(key, Some(Head(e.version, e.expiresAt, e.meta)), if headOnly then [] else e.value)
  }

  function GetRecord(codec: Codec, db: Db, key: Key, headOnly: bool, clock: Clock): Record {
    var k := codec.encode(key);
    if k in db then FetchRecord(key, db[k], headOnly, clock, 0) else NotFound(key)
  }

  /** Every stored key came out of EncodeKey. */
  ghost predicate KeysEncoded(codec: Codec, db: Db) {
    forall k :: k in db ==> exists key :: k == codec.encode(key)
  }

  /** No stored key takes the decoder out of range. */
  ghost predicate Decodable(codec: Codec, db: Db) {
    forall k :: k in db ==> !codec.decode(k).Panicked?
  }

  /** What the item at position i of a scan contributes: nothing when its key does not
      decode or it has expired. */
  function ItemAt(codec: Codec, db: Db, k: ByteSeq, headOnly: bool, clock: Clock, i: nat): Option<Record>
    requires k in db
  {
    match codec.decode(k)
    case Ok(key) =>
      var r := FetchRecord(key, db[k], headOnly, clock, i);
      if r.head.Some? then Some(r) else None
    case _ => None
  }

  /** The records an iterator over `keys` yields, up to position n. */
  function Visible(codec: Codec, db: Db, keys: seq<ByteSeq>, headOnly: bool, clock: Clock, n: nat): seq<Record>
    requires n <= |keys|
    requires forall i :: 0 <= i < |keys| ==> keys[i] in db
  {
    if n == 0 then []
    else
      var rest := Visible(codec, db, keys, headOnly, clock, n - 1);
      match ItemAt(codec, db, keys[n - 1], headOnly, clock, n - 1)
      case Some(r) => rest + [r]
      case None => rest
  }

  /** The expired entries an iterator meets, up to position n. */
  function Expired(db: Db, keys: seq<ByteSeq>, clock: Clock, n: nat): seq<ReclaimEntry>
    requires n <= |keys|
    requires forall i :: 0 <= i < |keys| ==> keys[i] in db
  {
    if n == 0 then []
    else
      var rest := Expired(db, keys, clock, n - 1);
      var e := db[keys[n - 1]];
      if clock.expired(n - 1, e.expiresAt) then rest + [ReclaimEntry(keys[n - 1], e.version)] else rest
  }

  function Concat(blocks: seq<seq<Record>>): seq<Record> {
    if blocks == [] then [] else Concat(blocks[..|blocks| - 1]) + blocks[|blocks| - 1]
  }

  const BLOCK_SIZE := 100

  // ----- The store object ----------------------------------------------------------

  class KeyValueStorage {
    const uuid: UuidCodec
    const codec: Codec := Physical(uuid)
    var db: Db
    /** Everything notified to the local watch hub, in order. */
    var hub: seq<Event>

    constructor (uuid: UuidCodec)
      ensures this.uuid == uuid && db == map[] && hub == []
    {
      this.uuid := uuid;
      db := map[];
      hub := [];
    }

    ghost predicate Valid() {
      uuid.Lossless()
    }

    method Notify(ev: Event)
      modifies this`hub
      ensures hub == old(hub) + [ev]
    {
      hub := hub + [ev];
    }

    method NotifyAll(evs: seq<Event>)
      modifies this`hub
      ensures hub == old(hub) + evs
    {
      for i := 0 to |evs|
        invariant hub == old(hub) + evs[..i]
      {
        Notify(evs[i]);
      }
    }

    method Put(req: RecordRequest, commitVersion: U64, clock: Clock) returns (reply: Reply)
      requires Valid()
      modifies this
      ensures var eff := PutEffect(codec, old(db), req, commitVersion, clock);
              && db == ApplyChanges(old(db), eff.changes)
              && hub == old(hub) + Events(eff.changes)
              && reply == eff.reply
    {
      if req.key.None? {
        return EmptyKey;
      }
      var entryKey, _ := KeyCodec.EncodeKey(uuid, req.key.value);
      var oldVersion: U64 := 0;
      var exists_ := entryKey in db;
      if exists_ {
        oldVersion := db[entryKey].version;
      }
      if req.compareAndSet {
        if !exists_ {
          if req.version != 0 {
            return Status(false);
          }
        } else if req.version != oldVersion {
          return Status(false);
        }
      }
      var version := NextVersion(commitVersion, oldVersion);
      var expiresAt := ResolveExpiry(clock, 0, req.ttlSeconds, req.expiresAt);
      ghost var change := PutChange(db, entryKey, req, commitVersion, clock, 0);
      ApplyOne(db, change);
      db := db[entryKey := Entry(version, expiresAt, req.value, req.metadata % 256)];
      Notify(WatchSet(entryKey, req.value, version));
      return Status(true);
    }

    method Touch(req: RecordRequest, commitVersion: U64, clock: Clock) returns (reply: Reply)
      requires Valid()
      modifies this
      ensures var eff := TouchEffect(codec, old(db), req, commitVersion, clock);
              && db == ApplyChanges(old(db), eff.changes)
              && hub == old(hub) + Events(eff.changes)
              && reply == eff.reply
    {
      if req.key.None? {
        return EmptyKey;
      }
      var entryKey, _ := KeyCodec.EncodeKey(uuid, req.key.value);
      if entryKey !in db {
        return Status(false);
      }
      var item := db[entryKey];
      var version := NextVersion(commitVersion, item.version);
      var expiresAt := ResolveExpiry(clock, 0, req.ttlSeconds, req.expiresAt);
      var entry := Entry(version, expiresAt, item.value, item.meta);
      ApplyOne(db, SetEntry(entryKey, entry));
      db := db[entryKey := entry];
      Notify(WatchSet(entryKey, item.value, version));
      return Status(true);
    }

    method Remove(key: Option<Key>) returns (reply: Reply)
      requires Valid()
      modifies this
      ensures var eff := RemoveEffect(codec, key);
              && db == ApplyChanges(old(db), eff.changes)
              && hub == old(hub) + Events(eff.changes)
              && reply == eff.reply
    {
      if key.None? {
        return EmptyKey;
      }
      var entryKey, _ := KeyCodec.EncodeKey(uuid, key.value);
      ApplyOne(db, DeleteKey(entryKey));
      db := db - {entryKey};
      Notify(WatchDelete(entryKey));
      return Status(true);
    }

    method Increment(req: IncrementRequest, commitVersion: U64, clock: Clock) returns (reply: Reply)
      requires Valid()
      modifies this
      ensures var eff := IncrementEffect(codec, old(db), req, commitVersion, clock);
              && db == ApplyChanges(old(db), eff.changes)
              && hub == old(hub) + Events(eff.changes)
              && reply == eff.reply
    {
      if req.key.None? {
        return EmptyKey;
      }
      var entryKey, _ := KeyCodec.EncodeKey(uuid, req.key.value);
      var oldVersion: U64 := 0;
      var counter := req.initial;
      if entryKey in db {
        oldVersion := db[entryKey].version;
        counter := CounterOf(db[entryKey].value, req.initial);
      }
      var prev := counter;
      counter := Wrap(counter + req.delta);
      var version := NextVersion(commitVersion, oldVersion);
      var buf := CounterBytes(counter);
      var entry := Entry(version, ResolveExpiry(clock, 0, req.ttlSeconds, req.expiresAt), buf, 0);
      ApplyOne(db, SetEntry(entryKey, entry));
      db := db[entryKey := entry];
      Notify(WatchSet(entryKey, buf, version));
      return Counter(prev, counter, version);
    }

    /** One transaction for the whole batch: a record without a key discards it. */
    method SetBatch(records: seq<RecordRequest>, commitVersion: U64, clock: Clock) returns (reply: Reply)
      requires Valid()
      modifies this
      ensures var eff := BatchEffect(codec, old(db), records, commitVersion, clock);
              && db == ApplyChanges(old(db), eff.changes)
              && hub == old(hub) + Events(eff.changes)
              && reply == eff.reply
    {
      var txn, pending, ok := StageBatch(uuid, db, records, commitVersion, clock);
      if !ok {
        return EmptyKey;
      }
      db := txn;
      NotifyAll(pending);
      return Status(true);
    }

    method Reclaim(entries: seq<ReclaimEntry>) returns (reply: Reply)
      requires Valid()
      modifies this
      ensures var eff := ReclaimEffect(old(db), entries);
              && db == ApplyChanges(old(db), eff.changes)
              && hub == old(hub) + Events(eff.changes)
              && reply == eff.reply
    {
      if |entries| == 0 {
        return Reclaimed(0);
      }
      var txn := db;
      var deleted: seq<Event> := [];
      ghost var cs: seq<Change> := [];
      for i := 0 to |entries|
        invariant db == old(db) && hub == old(hub)
        invariant cs == ReclaimChanges(old(db), entries, i)
        invariant txn == ApplyChanges(old(db), cs)
        invariant deleted == Events(cs) && |deleted| == |cs|
      {
        var e := entries[i];
        if e.entryKey !in txn {
          continue;
        }
        if txn[e.entryKey].version != e.version {
          continue;
        }
        ApplySnoc(old(db), cs, DeleteKey(e.entryKey));
        cs := cs + [DeleteKey(e.entryKey)];
        txn := txn - {e.entryKey};
        deleted := deleted + [WatchDelete(e.entryKey)];
      }
      if |deleted| == 0 {
        return Reclaimed(0);
      }
      db := txn;
      NotifyAll(deleted);
      return Reclaimed(|deleted|);
    }

    method Get(key: Option<Key>, headOnly: bool, clock: Clock) returns (r: Option<Record>)
      requires Valid()
      ensures r == if key.None? then None else Some(GetRecord(codec, db, key.value, headOnly, clock))
    {
      if key.None? {
        return None;
      }
      var entryKey, _ := KeyCodec.EncodeKey(uuid, key.value);
      if entryKey in db {
        r := Some(FetchRecord(key.value, db[entryKey], headOnly, clock, 0));
      } else {
        r := Some(NotFound(key.value));
      }
    }

    /** cancelled(i) is the context's state before item i. A scan cut short reports failure. */
    method ScanExpired(limit: int, clock: Clock, cancelled: nat -> bool)
      returns (entries: seq<ReclaimEntry>, ok: bool, ghost scanned: nat)
      ensures scanned <= |Ascending(db.Keys)|
      ensures entries == Expired(db, Ascending(db.Keys), clock, scanned)
      ensures limit > 0 ==> |entries| <= limit
      ensures ok && (limit <= 0 || |entries| < limit) ==> scanned == |Ascending(db.Keys)|
      ensures !ok ==> scanned < |Ascending(db.Keys)| && cancelled(scanned)
    {
      entries, ok, scanned := CollectExpired(db, Ascending(db.Keys), limit, clock, cancelled);
    }

    /** Streams the area in blocks. accepts(i) says whether the sender takes block i; the
        first refusal ends the scan with an error. */
    method GetArea(key: Option<Key>, last: Field, headOnly: bool, clock: Clock, accepts: nat -> bool)
      returns (blocks: seq<seq<Record>>, ok: bool)
      requires Valid() && Decodable(codec, db)
      ensures BlocksWellFormed(blocks, accepts)
      ensures key.None? || PrefixBytes(uuid, key.value, last).None? ==> !ok && blocks == []
      ensures key.Some? && PrefixBytes(uuid, key.value, last).Some? ==>
                var keys := AscendingUnder(db.Keys, PrefixBytes(uuid, key.value, last).value);
                && (ok ==> Concat(blocks) == Visible(codec, db, keys, headOnly, clock, |keys|))
                && (!ok ==> !accepts(|blocks|))
                && Concat(blocks) <= Visible(codec, db, keys, headOnly, clock, |keys|)
    {
      if key.None? {
        return [], false;
      }
      var prefix := KeyCodec.EncodeKeyPrefix(uuid, key.value, last);
      if prefix.None? {
        return [], false;
      }
      blocks, ok := StreamBlocks(codec, db, AscendingUnder(db.Keys, prefix.value), headOnly, clock, accepts);
    }

    /** The same stream over every key. */
    method Scan(headOnly: bool, clock: Clock, accepts: nat -> bool) returns (blocks: seq<seq<Record>>, ok: bool)
      requires Valid() && Decodable(codec, db)
      ensures BlocksWellFormed(blocks, accepts)
      ensures ok ==> Concat(blocks) == Visible(codec, db, Ascending(db.Keys), headOnly, clock, |Ascending(db.Keys)|)
      ensures !ok ==> !accepts(|blocks|)
      ensures Concat(blocks) <= Visible(codec, db, Ascending(db.Keys), headOnly, clock, |Ascending(db.Keys)|)
    {
      blocks, ok := StreamBlocks(codec, db, Ascending(db.Keys), headOnly, clock, accepts);
    }
  }

  /** Stages one record of a batch: the i-th reading of the clock is its own. */
  method StageOne(uuid: UuidCodec, txn: Db, record: RecordRequest, key: Key, commitVersion: U64, clock: Clock, i: nat)
    returns (staged: Db, event: Event)
    requires uuid.Lossless()
    ensures var c := PutChange(txn, Physical(uuid).encode(key), record, commitVersion, clock, i);
            staged == ApplyChange(txn, c) && event == EventOf(c)
  {
    var entryKey, _ := KeyCodec.EncodeKey(uuid, key);
    var version := commitVersion;
    if version == 0 {
      version := NextVersion(0, OldVersion(txn, entryKey));
    }
    var expiresAt := ResolveExpiry(clock, i, record.ttlSeconds, record.expiresAt);
    staged := txn[entryKey := Entry(version, expiresAt, record.value, record.metadata % 256)];
    event := WatchSet(entryKey, record.value, version);
  }

  /** The writes of a batch inside its transaction, and the notifications to send once it commits. */
  method StageBatch(uuid: UuidCodec, db: Db, records: seq<RecordRequest>, commitVersion: U64, clock: Clock)
    returns (txn: Db, pending: seq<Event>, ok: bool)
    requires uuid.Lossless()
    ensures ok <==> forall i :: 0 <= i < |records| ==> records[i].key.Some?
    ensures ok ==> var cs := BatchChanges(Physical(uuid), db, records, commitVersion, clock, |records|);
                   txn == ApplyChanges(db, cs) && pending == Events(cs)
  {
    var codec := Physical(uuid);
    txn, pending := db, [];
    for i := 0 to |records|
      invariant forall j :: 0 <= j < i ==> records[j].key.Some?
      invariant txn == ApplyChanges(db, BatchChanges(codec, db, records, commitVersion, clock, i))
      invariant pending == Events(BatchChanges(codec, db, records, commitVersion, clock, i))
    {
      var record := records[i];
      if record.key.None? {
        return txn, pending, false;
      }
      BatchStep(codec, db, records, commitVersion, clock, i);
      var event;
      txn, event := StageOne(uuid, txn, record, record.key.value, commitVersion, clock, i);
      pending := pending + [event];
    }
    ok := true;
  }

  method CollectExpired(db: Db, keys: seq<ByteSeq>, limit: int, clock: Clock, cancelled: nat -> bool)
    returns (entries: seq<ReclaimEntry>, ok: bool, ghost scanned: nat)
    requires forall i :: 0 <= i < |keys| ==> keys[i] in db
    ensures scanned <= |keys| && entries == Expired(db, keys, clock, scanned)
    ensures limit > 0 ==> |entries| <= limit
    ensures ok && (limit <= 0 || |entries| < limit) ==> scanned == |keys|
    ensures !ok ==> scanned < |keys| && cancelled(scanned)
  {
    entries := [];
    for i := 0 to |keys|
      invariant entries == Expired(db, keys, clock, i)
      invariant limit > 0 ==> |entries| < limit
    {
      if cancelled(i) {
        return entries, false, i;
      }
      var item := db[keys[i]];
      if !clock.expired(i, item.expiresAt) {
        continue;
      }
      entries := entries + [ReclaimEntry(keys[i], item.version)];
      if limit > 0 && |entries| >= limit {
        return entries, true, i + 1;
      }
    }
    ok, scanned := true, |keys|;
  }

  /** Every block sent was taken and is full, except that the last may be shorter. */
  ghost predicate BlocksWellFormed(blocks: seq<seq<Record>>, accepts: nat -> bool) {
    && (forall i :: 0 <= i < |blocks| ==> accepts(i) && 0 < |blocks[i]| <= BLOCK_SIZE)
    && (forall i :: 0 <= i < |blocks| - 1 ==> |blocks[i]| == BLOCK_SIZE)
  }

  ghost predicate AllFull(blocks: seq<seq<Record>>, accepts: nat -> bool) {
    forall i :: 0 <= i < |blocks| ==> accepts(i) && |blocks[i]| == BLOCK_SIZE
  }

  /** Adds a record to the open block and sends the block once it is full. */
  method Append(sent: seq<seq<Record>>, open: seq<Record>, record: Record, accepts: nat -> bool)
    returns (blocks: seq<seq<Record>>, records: seq<Record>, ok: bool)
    requires |open| < BLOCK_SIZE && AllFull(sent, accepts)
    ensures AllFull(blocks, accepts)
    ensures ok ==> |records| < BLOCK_SIZE && Concat(blocks) + records == Concat(sent) + open + [record]
    ensures !ok ==> blocks == sent && !accepts(|blocks|)
  {
    blocks, records, ok := sent, open + [record], true;
    if |records| == BLOCK_SIZE {
      if !accepts(|blocks|) {
        return blocks, records, false;
      }
      ConcatSnoc(blocks, records);
      blocks, records := blocks + [records], [];
    }
  }

  /** Sends the open block, if there is anything in it. */
  method Flush(sent: seq<seq<Record>>, open: seq<Record>, accepts: nat -> bool)
    returns (blocks: seq<seq<Record>>, ok: bool)
    requires |open| < BLOCK_SIZE && AllFull(sent, accepts)
    ensures BlocksWellFormed(blocks, accepts)
    ensures ok ==> Concat(blocks) == Concat(sent) + open
    ensures !ok ==> blocks == sent && !accepts(|blocks|)
  {
    if |open| > 0 {
      if !accepts(|sent|) {
        return sent, false;
      }
      ConcatSnoc(sent, open);
      return sent + [open], true;
    }
    return sent, true;
  }

  method StreamBlocks(codec: Codec, db: Db, keys: seq<ByteSeq>, headOnly: bool, clock: Clock, accepts: nat -> bool)
    returns (blocks: seq<seq<Record>>, ok: bool)
    requires Decodable(codec, db)
    requires forall i :: 0 <= i < |keys| ==> keys[i] in db
    ensures BlocksWellFormed(blocks, accepts)
    ensures ok ==> Concat(blocks) == Visible(codec, db, keys, headOnly, clock, |keys|)
    ensures !ok ==> !accepts(|blocks|)
    ensures Concat(blocks) <= Visible(codec, db, keys, headOnly, clock, |keys|)
  {
    blocks := [];
    var records: seq<Record> := [];
    for i := 0 to |keys|
      invariant |records| < BLOCK_SIZE && AllFull(blocks, accepts)
      invariant Concat(blocks) + records == Visible(codec, db, keys, headOnly, clock, i)
    {
      var item := ItemAt(codec, db, keys[i], headOnly, clock, i);
      if item.None? {
        continue;
      }
      SentSoFar(codec, db, keys, headOnly, clock, i, Concat(blocks), records);
      blocks, records, ok := Append(blocks, records, item.value, accepts);
      if !ok {
        return;
      }
    }
    SentSoFar(codec, db, keys, headOnly, clock, |keys|, Concat(blocks), records);
    blocks, ok := Flush(blocks, records, accepts);
  }

  lemma SentSoFar(codec: Codec, db: Db, keys: seq<ByteSeq>, headOnly: bool, clock: Clock, n: nat, sent: seq<Record>,
                  open: seq<Record>)
    requires n <= |keys| && (forall i :: 0 <= i < |keys| ==> keys[i] in db)
    requires sent + open == Visible(codec, db, keys, headOnly, clock, n)
    ensures sent <= Visible(codec, db, keys, headOnly, clock, |keys|)
  {
    assert sent <= sent + open;
    VisibleMonotone(codec, db, keys, headOnly, clock, n, |keys|);
  }

  lemma ConcatSnoc(blocks: seq<seq<Record>>, block: seq<Record>)
    ensures Concat(blocks + [block]) == Concat(blocks) + block
  {
    assert (blocks + [block])[..|blocks|] == blocks;
  }

  lemma DecodesStored(codec: Codec, db: Db, k: ByteSeq)
    requires codec.Lossless() && KeysEncoded(codec, db) && k in db
    ensures codec.decode(k).Ok?
    ensures codec.encode(codec.decode(k).key) == k
    ensures SanitizedKey(codec.decode(k).key) == codec.decode(k).key
  {
    var key :| k == codec.encode(key);
    SanitizedTwice(key);
  }

  lemma {:induction false} VisibleMonotone(codec: Codec, db: Db, keys: seq<ByteSeq>, headOnly: bool, clock: Clock,
                                           m: nat, n: nat)
    requires m <= n <= |keys|
    requires forall i :: 0 <= i < |keys| ==> keys[i] in db
    ensures Visible(codec, db, keys, headOnly, clock, m) <= Visible(codec, db, keys, headOnly, clock, n)
  {
    if m < n {
      VisibleMonotone(codec, db, keys, headOnly, clock, m, n - 1);
    }
  }
}
