/** Enumerating and watching a prefix: areaField and enumerate in pkg/server/vrpc_data.go,
    watchPrefix in pkg/server/server.go. */
module Enumeration {
  import opened Bytes
  import opened KeyCodec
  import opened OrderedKeys
  import opened Storage
  import opened StorageLaws

  /** The depth a request asks for, by the fields that are set; None means everything. */
  function AreaField(prefix: Option<Key>): Option<Field> {
    match prefix
    case None => None
    case Some(p) =>
      if |p.minorKey| > 0 then Some(MinorKeyField)
      else if |p.regionName| > 0 then Some(RegionNameField)
      else if |p.majorKey| > 0 then Some(MajorKeyField)
      else None
  }

  /** The physical prefix the watch hub compares keys with. */
  function WatchPrefix(uuid: UuidCodec, prefix: Option<Key>): Option<ByteSeq> {
    match prefix
    case None => Some([])
    case Some(p) =>
      if |p.minorKey| > 0 then PrefixBytes(uuid, p, MinorKeyField)
      else if |p.regionName| > 0 then PrefixBytes(uuid, p, RegionNameField)
      else if |p.majorKey| > 0 then PrefixBytes(uuid, p, MajorKeyField)
      else Some([])
  }

  /** A key lies under a prefix when it agrees with every field down to the last one set. */
  predicate Under(prefix: Option<Key>, k: Key) {
    match AreaField(prefix)
    case None => true
    case Some(last) => InArea(prefix.value, last, k)
  }

  /** A watch hears of exactly the keys under its prefix: the keys an enumeration of the same
      prefix lists. */
  lemma WatchExact(uuid: UuidCodec, prefix: Option<Key>, k: Key)
    requires uuid.Lossless()
    ensures var w := WatchPrefix(uuid, prefix);
            w.Some? && (w.value <= EntryKeyBytes(uuid, k) <==> Under(prefix, k))
  {
    if AreaField(prefix).Some? {
      PrefixExact(uuid, prefix.value, AreaField(prefix).value, k);
    }
  }

  /** The prefix counts down to the last of major key, region and minor key that is set: a key lies
      under it when it agrees with that field and those before it. */
  lemma UnderExactly(prefix: Option<Key>, k: Key)
    ensures prefix.None? ==> Under(prefix, k)
    ensures prefix.Some? ==>
              var p := prefix.value;
              var depth := if p.minorKey != [] then 3 else if p.regionName != [] then 2
                           else if p.majorKey != [] then 1 else 0;
              Under(prefix, k)
              <==> && (depth >= 1 ==> Sanitized(k.majorKey) == Sanitized(p.majorKey))
                   && (depth >= 2 ==> Sanitized(k.regionName) == Sanitized(p.regionName))
                   && (depth >= 3 ==> Sanitized(k.minorKey) == Sanitized(p.minorKey))
  {
  }

  // ----- Ordered enumeration -------------------------------------------------------------------------

  /** Not after, by minor key, in the direction asked for. */
  predicate InOrder(reverse: bool, a: Record, b: Record) {
    if reverse then LexLeq(b.key.minorKey, a.key.minorKey) else LexLeq(a.key.minorKey, b.key.minorKey)
  }

  ghost predicate Sorted(reverse: bool, rs: seq<Record>) {
    forall i, j :: 0 <= i < j < |rs| ==> InOrder(reverse, rs[i], rs[j])
  }

  /** sort.Slice: some permutation in order, ties in any order. */
  ghost predicate Sorts(sort: (bool, seq<Record>) -> seq<Record>) {
    forall reverse, rs :: multiset(sort(reverse, rs)) == multiset(rs) && Sorted(reverse, sort(reverse, rs))
  }

  /** The records a scan of the prefix yields, in the engine's order. */
  ghost function Scanned(uuid: UuidCodec, db: Db, prefix: Option<Key>, clock: Clock): seq<Record>
    requires Decodable(Physical(uuid), db)
  {
    var keys := ScannedKeys(uuid, db, prefix);
    Visible(Physical(uuid), db, keys, false, clock, |keys|)
  }

  ghost function ScannedKeys(uuid: UuidCodec, db: Db, prefix: Option<Key>): (keys: seq<ByteSeq>)
    ensures forall i :: 0 <= i < |keys| ==> keys[i] in db
  {
    match AreaField(prefix)
    case Some(last) =>
      AscendingUnder(db.Keys, match PrefixBytes(uuid, prefix.value, last) case Some(b) => b case None => [])
    case None => Ascending(db.Keys)
  }

  lemma ScannedKeysExact(uuid: UuidCodec, db: Db, prefix: Option<Key>, k: Key)
    requires uuid.Lossless()
    ensures var b := EntryKeyBytes(uuid, k); b in ScannedKeys(uuid, db, prefix) <==> b in db && Under(prefix, k)
  {
    if AreaField(prefix).Some? {
      PrefixExact(uuid, prefix.value, AreaField(prefix).value, k);
    }
  }

  /** An enumeration meets the keys that are stored and lie under its prefix, all of them, no others,
      ascending; and lists of them, whole, what has not expired when it is met. */
  lemma ScannedExact(uuid: UuidCodec, db: Db, prefix: Option<Key>, clock: Clock) returns (keys: seq<ByteSeq>)
    requires uuid.Lossless() && Decodable(Physical(uuid), db)
    ensures StrictlyAscending(keys)
    ensures forall k: Key :: Physical(uuid).encode(k) in keys <==> Physical(uuid).encode(k) in db && Under(prefix, k)
    ensures forall r :: r in Scanned(uuid, db, prefix, clock)
                        <==> Shown(Physical(uuid), db, keys, false, clock, |keys|, r)
  {
    keys := ScannedKeys(uuid, db, prefix);
    forall k: Key ensures Physical(uuid).encode(k) in keys <==> Physical(uuid).encode(k) in db && Under(prefix, k) {
      ScannedKeysExact(uuid, db, prefix, k);
    }
    forall r ensures r in Scanned(uuid, db, prefix, clock)
                     <==> Shown(Physical(uuid), db, keys, false, clock, |keys|, r) {
      VisibleExact(Physical(uuid), db, keys, false, clock, |keys|, r);
    }
  }

  /** What reaches a reader that takes record i only while listening(i): the records up to the
      first it no longer waits for. */
  ghost predicate Heard(full: seq<Record>, listening: nat -> bool, out: seq<Record>) {
    && out <= full
    && (forall i :: 0 <= i < |out| ==> listening(i))
    && (|out| < |full| ==> !listening(|out|))
  }

  /** The sending loop: a cancelled context ends it. */
  method Send(records: seq<Record>, listening: nat -> bool) returns (out: seq<Record>)
    ensures Heard(records, listening, out)
  {
    out := [];
    for i := 0 to |records|
      invariant out == records[..i] && forall j :: 0 <= j < i ==> listening(j)
    {
      if !listening(i) {
        return;
      }
      out := out + [records[i]];
    }
  }

  method Enumerate(storage: KeyValueStorage, prefix: Option<Key>, ordered: bool, reverse: bool,
                   sort: (bool, seq<Record>) -> seq<Record>, clock: Clock, listening: nat -> bool)
    returns (out: seq<Record>)
    requires storage.Valid() && Decodable(storage.codec, storage.db)
    ensures var scanned := Scanned(storage.uuid, storage.db, prefix, clock);
            Heard(if ordered then sort(reverse, scanned) else scanned, listening, out)
  {
    var blocks, ok;
    match AreaField(prefix) {
      case Some(last) => blocks, ok := storage.GetArea(prefix, last, false, clock, _ => true);
      case None => blocks, ok := storage.Scan(false, clock, _ => true);
    }
    var records := Concat(blocks);
    if ordered {
      records := sort(reverse, records);
    }
    out := Send(records, listening);
  }

  /** An ordered stream is sorted as far as it was heard, and a reader that keeps listening gets
      every record of the scan, each as often as the scan has it. */
  lemma OrderedStream(sort: (bool, seq<Record>) -> seq<Record>, reverse: bool, scanned: seq<Record>,
                      listening: nat -> bool, out: seq<Record>)
    requires Sorts(sort) && Heard(sort(reverse, scanned), listening, out)
    ensures Sorted(reverse, out)
    ensures (forall i :: listening(i)) ==> multiset(out) == multiset(scanned)
  {
    var full := sort(reverse, scanned);
    assert multiset(full) == multiset(scanned) && Sorted(reverse, full);
    if |out| == |full| {
      assert out == full;
    }
  }

  // ----- When minor keys are distinct there is one answer ---------------------------------------------------

  ghost predicate DistinctMinors(rs: seq<Record>) {
    forall i, j :: 0 <= i < j < |rs| ==> rs[i].key.minorKey != rs[j].key.minorKey
  }

  function Reversed(rs: seq<Record>): (r: seq<Record>)
    ensures |r| == |rs| && forall i :: 0 <= i < |r| ==> r[i] == rs[|rs| - 1 - i]
  {
    if rs == [] then [] else [rs[|rs| - 1]] + Reversed(rs[..|rs| - 1])
  }

  lemma FirstIsFirst(a: seq<Record>, b: seq<Record>)
    requires multiset(a) == multiset(b) && a != [] && b != [] && Sorted(false, a) && Sorted(false, b)
        && DistinctMinors(a)
    ensures a[0] == b[0]
  {
    assert a[0] in multiset(b) && b[0] in multiset(a);
    var i :| 0 <= i < |a| && a[i] == b[0];
    var j :| 0 <= j < |b| && b[j] == a[0];
    if i > 0 {
      assert InOrder(false, a[0], a[i]);
      if j > 0 {
        assert InOrder(false, b[0], b[j]);
        LexAntisymmetric(a[0].key.minorKey, b[0].key.minorKey);
      }
    }
  }

  /** Records with distinct minor keys have one ascending order. */
  lemma {:induction false} SortUnique(a: seq<Record>, b: seq<Record>)
    requires multiset(a) == multiset(b) && Sorted(false, a) && Sorted(false, b) && DistinctMinors(a)
    ensures a == b
  {
    assert |a| == |multiset(a)| && |b| == |multiset(b)|;
    if a != [] {
      FirstIsFirst(a, b);
      assert a == [a[0]] + a[1..] && b == [b[0]] + b[1..];
      assert multiset(a[1..]) == multiset(a) - multiset{a[0]};
      assert multiset(b[1..]) == multiset(b) - multiset{b[0]};
      SortUnique(a[1..], b[1..]);
    }
  }

  lemma {:induction false} ReversedSame(rs: seq<Record>)
    ensures multiset(Reversed(rs)) == multiset(rs)
  {
    if rs != [] {
      ReversedSame(rs[..|rs| - 1]);
      assert rs == rs[..|rs| - 1] + [rs[|rs| - 1]];
    }
  }

  /** Whatever the sort does with ties, records with distinct minor keys enumerate forward as one
      list and in reverse as that list backwards. */
  lemma ReverseIsBackwards(sort: (bool, seq<Record>) -> seq<Record>, rs: seq<Record>)
    requires Sorts(sort) && DistinctMinors(sort(false, rs))
    ensures sort(true, rs) == Reversed(sort(false, rs))
  {
    var fore, back := sort(false, rs), sort(true, rs);
    var turned := Reversed(back);
    ReversedSame(back);
    assert multiset(fore) == multiset(rs) == multiset(back);
    forall i, j | 0 <= i < j < |turned| ensures InOrder(false, turned[i], turned[j]) {
      assert InOrder(true, back[|back| - 1 - j], back[|back| - 1 - i]);
    }
    SortUnique(fore, turned);
    assert back == Reversed(fore);
  }
}
