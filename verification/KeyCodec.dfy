/** The length-prefixed physical key: pkg/server/key.go.

    A key is three byte strings and an optional 128-bit time UUID. Each byte string is
    cut to 65535 bytes and written behind its two-byte length; the UUID, when there is
    one, closes the key. The encoders fill one buffer in place with a moving offset, and
    an overlong field spills past its own end before the next write lands on the spill. */
module KeyCodec {
  import opened Bytes

  const MAX_KEY_LENGTH := 65535
  const SIZE_OF_UUID := 16

  type I64 = x: int | -0x8000_0000_0000_0000 <= x < 0x8000_0000_0000_0000

  datatype TimeUuid = TimeUuid(mostSigBits: I64, leastSigBits: I64)

  datatype Key = Key(majorKey: ByteSeq, regionName: ByteSeq, minorKey: ByteSeq, timestamp: Option<TimeUuid>)

  datatype Field = MajorKeyField | RegionNameField | MinorKeyField | TimestampField

  /** The sortable binary form of a UUID, a library of its own: any map of UUIDs to
      sixteen bytes that can be undone. */
  datatype UuidCodec = UuidCodec(marshal: TimeUuid -> ByteSeq, unmarshal: ByteSeq -> TimeUuid) {
    ghost predicate Lossless() {
      forall t: TimeUuid :: |marshal(t)| == SIZE_OF_UUID && unmarshal(marshal(t)) == t
    }
  }

  // ----- What the encoders compute ------------------------------------------

  function SanitizeKeyLen(n: nat): (r: nat)
    ensures r <= n && r <= MAX_KEY_LENGTH
    ensures r == n || r == MAX_KEY_LENGTH
  {
    if n > MAX_KEY_LENGTH then MAX_KEY_LENGTH else n
  }

  /** The part of a field that is stored. */
  function Sanitized(b: ByteSeq): ByteSeq {
    b[..SanitizeKeyLen(|b|)]
  }

  function SanitizedKey(key: Key): Key {
    Key(Sanitized(key.majorKey), Sanitized(key.regionName), Sanitized(key.minorKey), key.timestamp)
  }

  function FieldBytes(b: ByteSeq): (r: ByteSeq)
    ensures |r| == 2 + SanitizeKeyLen(|b|)
  {
    BigEndian(SanitizeKeyLen(|b|), 2) + Sanitized(b)
  }

  function RowKeyBytes(key: Key): ByteSeq {
    FieldBytes(key.majorKey) + (FieldBytes(key.regionName) + FieldBytes(key.minorKey))
  }

  function TimestampBytes(uuid: UuidCodec, key: Key): ByteSeq {
    if key.timestamp.Some? then uuid.marshal(key.timestamp.value) else []
  }

  function EntryKeyBytes(uuid: UuidCodec, key: Key): ByteSeq {
    RowKeyBytes(key) + TimestampBytes(uuid, key)
  }

  /** The bytes every key under `key`, down to `last`, starts with; None where the source
      reports that the key has no such field. */
  function PrefixBytes(uuid: UuidCodec, key: Key, last: Field): Option<ByteSeq> {
    match last
    case MajorKeyField => Some(FieldBytes(key.majorKey))
    case RegionNameField => Some(FieldBytes(key.majorKey) + FieldBytes(key.regionName))
    case MinorKeyField => Some(RowKeyBytes(key))
    case TimestampField =>
      if key.timestamp.Some? then Some(RowKeyBytes(key) + uuid.marshal(key.timestamp.value)) else None
  }

  lemma RowInOrder(key: Key)
    ensures FieldBytes(key.majorKey) + FieldBytes(key.regionName) + FieldBytes(key.minorKey) == RowKeyBytes(key)
  {
  }

  // ----- The encoders, writing in place --------------------------------------

  function Min(a: nat, b: nat): nat {
    if a < b then a else b
  }

  /** copy(out[at:], src): stops at the end of either side. */
  method CopyInto(out: array<Byte>, at: nat, src: ByteSeq)
    requires at <= out.Length
    modifies out
    ensures forall k :: 0 <= k < out.Length ==>
              out[k] == if at <= k < at + Min(|src|, out.Length - at) then src[k - at] else old(out[k])
  {
    var n := Min(|src|, out.Length - at);
    for i := 0 to n
      invariant forall k :: 0 <= k < out.Length ==>
                  out[k] == if at <= k < at + i then src[k - at] else old(out[k])
    {
      out[at + i] := src[i];
    }
  }

  /** Writes the length and then the whole field, which may run past its own end. */
  method WriteField(out: array<Byte>, at: nat, field: ByteSeq) returns (next: nat)
    requires at + 2 + SanitizeKeyLen(|field|) <= out.Length
    modifies out
    ensures next == at + 2 + SanitizeKeyLen(|field|)
    ensures out[..next] == old(out[..at]) + FieldBytes(field)
  {
    var len := SanitizeKeyLen(|field|);
    CopyInto(out, at, BigEndian(len, 2));
    CopyInto(out, at + 2, field);
    next := at + 2 + len;
    assert out[..at] == old(out[..at]);
    assert out[at..at + 2] == BigEndian(len, 2);
    assert out[at + 2..next] == field[..len];
  }

  method WriteUuid(out: array<Byte>, at: nat, id: ByteSeq)
    requires |id| == SIZE_OF_UUID && at + SIZE_OF_UUID <= out.Length
    modifies out
    ensures out[..at + SIZE_OF_UUID] == old(out[..at]) + id
  {
    CopyInto(out, at, id);
    assert out[..at] == old(out[..at]);
    assert out[at..at + SIZE_OF_UUID] == id;
  }

  /** Whatever the field lengths, no spilled byte is left in either returned slice. */
  method EncodeKey(uuid: UuidCodec, key: Key) returns (entryKey: ByteSeq, rowKey: ByteSeq)
    requires uuid.Lossless()
    ensures entryKey == EntryKeyBytes(uuid, key)
    ensures rowKey == RowKeyBytes(key)
  {
    var out := new Byte[2 + SanitizeKeyLen(|key.majorKey|) + 2 + SanitizeKeyLen(|key.regionName|)
                        + 2 + SanitizeKeyLen(|key.minorKey|) + SIZE_OF_UUID](_ => 0);
    var i := WriteField(out, 0, key.majorKey);
    i := WriteField(out, i, key.regionName);
    i := WriteField(out, i, key.minorKey);
    assert out[..i] == RowKeyBytes(key);
    rowKey := out[..i];
    if key.timestamp.Some? {
      WriteUuid(out, i, uuid.marshal(key.timestamp.value));
      assert out[..] == out[..i + SIZE_OF_UUID];
      entryKey, rowKey := out[..], out[..i];
    } else {
      entryKey := out[..i];
    }
  }

  method EncodeKeyPrefix(uuid: UuidCodec, key: Key, last: Field) returns (prefix: Option<ByteSeq>)
    requires uuid.Lossless()
    ensures prefix == PrefixBytes(uuid, key, last)
  {
    var out := new Byte[2 + SanitizeKeyLen(|key.majorKey|) + 2 + SanitizeKeyLen(|key.regionName|)
                        + 2 + SanitizeKeyLen(|key.minorKey|) + SIZE_OF_UUID](_ => 0);
    var i := WriteField(out, 0, key.majorKey);
    assert out[..i] == FieldBytes(key.majorKey);
    if last == MajorKeyField {
      return Some(out[..i]);
    }
    i := WriteField(out, i, key.regionName);
    assert out[..i] == FieldBytes(key.majorKey) + FieldBytes(key.regionName);
    if last == RegionNameField {
      return Some(out[..i]);
    }
    i := WriteField(out, i, key.minorKey);
    RowInOrder(key);
    assert out[..i] == RowKeyBytes(key);
    if last == MinorKeyField {
      return Some(out[..i]);
    }
    if key.timestamp.Some? {
      WriteUuid(out, i, uuid.marshal(key.timestamp.value));
      return Some(out[..i + SIZE_OF_UUID]);
    }
    return None;
  }

  // ----- The decoder ----------------------------------------------------------

  /** Panicked is a slice expression out of range: the lengths behind the first field are
      read without a bounds check. */
  datatype Decoded = Ok(key: Key) | OutOfBounds | Panicked

  /** One length-prefixed field at offset j: the field and the offset behind it. */
  datatype FieldAt = FieldAt(field: ByteSeq, next: nat) | NoLength | TooLong

  function DecodeField(b: ByteSeq, j: nat): FieldAt {
    if j + 2 > |b| then NoLength
    else
      var i := j + 2;
      var end := i + Uint(b[j..i]);
      if end > |b| then TooLong else FieldAt(b[i..end], end)
  }

  function DecodeKey(uuid: UuidCodec, b: ByteSeq): Decoded {
    if |b| < 6 then OutOfBounds
    else
      match DecodeField(b, 0)
      case NoLength => Panicked
      case TooLong => OutOfBounds
      case FieldAt(major, j1) =>
        match DecodeField(b, j1)
        case NoLength => Panicked
        case TooLong => OutOfBounds
        case FieldAt(region, j2) =>
          match DecodeField(b, j2)
          case NoLength => Panicked
          case TooLong => OutOfBounds
          case FieldAt(minor, j3) =>
            if j3 + SIZE_OF_UUID <= |b|
            then Ok(Key(major, region, minor, Some(uuid.unmarshal(b[j3..j3 + SIZE_OF_UUID]))))
            else Ok(Key(major, region, minor, None))
  }

  // ----- Round trip ------------------------------------------------------------

  lemma FieldAtOffset(b: ByteSeq, pre: ByteSeq, field: ByteSeq, post: ByteSeq)
    requires b == pre + FieldBytes(field) + post
    ensures DecodeField(b, |pre|) == FieldAt(Sanitized(field), |pre| + |FieldBytes(field)|)
  {
    var n := SanitizeKeyLen(|field|);
    var len, cut := BigEndian(n, 2), Sanitized(field);
    FieldParts(pre, len, cut, post);
    UintOfBigEndian(n, 2);
    Pow256Values();
  }

  lemma FieldParts(pre: ByteSeq, len: ByteSeq, cut: ByteSeq, post: ByteSeq)
    ensures var b, i := pre + (len + cut) + post, |pre| + |len|;
            b[|pre|..i] == len && b[i..i + |cut|] == cut && i + |cut| <= |b|
  {
  }

  lemma Regroup(f1: ByteSeq, f2: ByteSeq, f3: ByteSeq, ts: ByteSeq)
    ensures f1 + (f2 + f3) + ts == [] + f1 + (f2 + f3 + ts)
    ensures f1 + (f2 + f3) + ts == f1 + f2 + (f3 + ts)
    ensures f1 + (f2 + f3) + ts == (f1 + f2) + f3 + ts
  {
  }

  lemma DecodedFields(key: Key, ts: ByteSeq, b: ByteSeq)
    requires b == RowKeyBytes(key) + ts
    ensures var j1 := |FieldBytes(key.majorKey)|;
            var j2 := j1 + |FieldBytes(key.regionName)|;
            && DecodeField(b, 0) == FieldAt(Sanitized(key.majorKey), j1)
            && DecodeField(b, j1) == FieldAt(Sanitized(key.regionName), j2)
            && DecodeField(b, j2) == FieldAt(Sanitized(key.minorKey), |RowKeyBytes(key)|)
  {
    var f1, f2, f3 := FieldBytes(key.majorKey), FieldBytes(key.regionName), FieldBytes(key.minorKey);
    Regroup(f1, f2, f3, ts);
    FieldAtOffset(b, [], key.majorKey, f2 + f3 + ts);
    FieldAtOffset(b, f1, key.regionName, f3 + ts);
    FieldAtOffset(b, f1 + f2, key.minorKey, ts);
  }

  function TimestampIn(uuid: UuidCodec, ts: ByteSeq): Option<TimeUuid> {
    if SIZE_OF_UUID <= |ts| then Some(uuid.unmarshal(ts[..SIZE_OF_UUID])) else None
  }

  lemma RowThenRest(uuid: UuidCodec, key: Key, ts: ByteSeq)
    ensures DecodeKey(uuid, RowKeyBytes(key) + ts) == Ok(SanitizedKey(key).(timestamp := TimestampIn(uuid, ts)))
  {
    var row, b := RowKeyBytes(key), RowKeyBytes(key) + ts;
    DecodedFields(key, ts, b);
    if SIZE_OF_UUID <= |ts| {
      assert b[|row|..|row| + SIZE_OF_UUID] == ts[..SIZE_OF_UUID];
    }
  }

  /** Decoding an encoded key gives back the key with its fields cut to 65535 bytes, and
      every read the decoder makes on the way is in bounds. */
  lemma RoundTrip(uuid: UuidCodec, key: Key)
    requires uuid.Lossless()
    ensures DecodeKey(uuid, EntryKeyBytes(uuid, key)) == Ok(SanitizedKey(key))
  {
    var ts := TimestampBytes(uuid, key);
    RowThenRest(uuid, key, ts);
    assert key.timestamp.Some? ==> ts[..SIZE_OF_UUID] == ts;
  }

  /** A field that decodes is stored where it was found. */
  lemma FieldFound(b: ByteSeq, j: nat)
    requires DecodeField(b, j).FieldAt?
    ensures var f := DecodeField(b, j);
            |f.field| <= MAX_KEY_LENGTH && f.next <= |b| && b[j..f.next] == FieldBytes(f.field)
  {
    var f := DecodeField(b, j);
    BigEndianOfUint(b[j..j + 2]);
    assert Uint(b[j..j + 2]) == |f.field|;
    TwoByteBound(b[j..j + 2]);
    assert b[j..f.next] == b[j..j + 2] + f.field;
    assert f.field[..|f.field|] == f.field;
  }

  lemma TwoByteBound(b: ByteSeq)
    requires |b| == 2
    ensures Uint(b) <= MAX_KEY_LENGTH
  {
    assert b[..1] == [b[0]] && b[..1][..0] == [];
    assert Uint(b[..1]) == b[0];
  }

  /** Whatever the bytes: they decode to a key exactly when they begin with its row, its fields are of
      storable length, and its timestamp is read from sixteen bytes behind the row, if there are so
      many. */
  lemma DecodesExactly(uuid: UuidCodec, b: ByteSeq, key: Key)
    ensures DecodeKey(uuid, b) == Ok(key)
            <==> && RowKeyBytes(key) <= b
                 && |key.majorKey| <= MAX_KEY_LENGTH && |key.regionName| <= MAX_KEY_LENGTH
                 && |key.minorKey| <= MAX_KEY_LENGTH
                 && var n := |RowKeyBytes(key)|;
                    key.timestamp == if n + SIZE_OF_UUID <= |b| then Some(uuid.unmarshal(b[n..n + SIZE_OF_UUID]))
                                     else None
  {
    if DecodeKey(uuid, b) == Ok(key) {
      RowFound(uuid, b, key);
    } else if RowKeyBytes(key) <= b && |key.majorKey| <= MAX_KEY_LENGTH && |key.regionName| <= MAX_KEY_LENGTH
              && |key.minorKey| <= MAX_KEY_LENGTH {
      RowDecodes(uuid, b, key);
    }
  }

  lemma RowDecodes(uuid: UuidCodec, b: ByteSeq, key: Key)
    requires RowKeyBytes(key) <= b
    requires |key.majorKey| <= MAX_KEY_LENGTH && |key.regionName| <= MAX_KEY_LENGTH && |key.minorKey| <= MAX_KEY_LENGTH
    ensures var n := |RowKeyBytes(key)|;
            DecodeKey(uuid, b)
            == Ok(key.(timestamp := if n + SIZE_OF_UUID <= |b| then Some(uuid.unmarshal(b[n..n + SIZE_OF_UUID]))
                                    else None))
  {
    var n, ts := |RowKeyBytes(key)|, b[|RowKeyBytes(key)|..];
    assert b == RowKeyBytes(key) + ts;
    RowThenRest(uuid, key, ts);
    assert SanitizedKey(key) == key;
    assert SIZE_OF_UUID <= |ts| ==> ts[..SIZE_OF_UUID] == b[n..n + SIZE_OF_UUID];
  }

  lemma ThreeSlices(b: ByteSeq, i: nat, j: nat, k: nat)
    requires i <= j <= k <= |b|
    ensures b[..k] == b[0..i] + (b[i..j] + b[j..k])
  {
  }

  lemma RowFound(uuid: UuidCodec, b: ByteSeq, key: Key)
    requires DecodeKey(uuid, b) == Ok(key)
    ensures RowKeyBytes(key) <= b
    ensures |key.majorKey| <= MAX_KEY_LENGTH && |key.regionName| <= MAX_KEY_LENGTH && |key.minorKey| <= MAX_KEY_LENGTH
    ensures var n := |RowKeyBytes(key)|;
            key.timestamp == if n + SIZE_OF_UUID <= |b| then Some(uuid.unmarshal(b[n..n + SIZE_OF_UUID])) else None
  {
    FieldFound(b, 0);
    var j1 := DecodeField(b, 0).next;
    FieldFound(b, j1);
    var j2 := DecodeField(b, j1).next;
    FieldFound(b, j2);
    var j3 := DecodeField(b, j2).next;
    ThreeSlices(b, j1, j2, j3);
    assert b[..j3] == RowKeyBytes(key);
  }

  lemma SanitizedIdempotent(b: ByteSeq)
    ensures Sanitized(Sanitized(b)) == Sanitized(b)
    ensures FieldBytes(Sanitized(b)) == FieldBytes(b)
  {
  }

  /** Two keys share an entry exactly when they agree after cutting. */
  lemma SameEntry(uuid: UuidCodec, a: Key, b: Key)
    requires uuid.Lossless()
    ensures EntryKeyBytes(uuid, a) == EntryKeyBytes(uuid, b) <==> SanitizedKey(a) == SanitizedKey(b)
  {
    RoundTrip(uuid, a);
    RoundTrip(uuid, b);
    forall k | k == a || k == b
      ensures EntryKeyBytes(uuid, k) == EntryKeyBytes(uuid, SanitizedKey(k))
    {
      SanitizedIdempotent(k.majorKey);
      SanitizedIdempotent(k.regionName);
      SanitizedIdempotent(k.minorKey);
    }
  }

  // ----- Prefix exactness --------------------------------------------------------

  /** k lies in the area p names, down to the field `last`. */
  predicate InArea(p: Key, last: Field, k: Key) {
    && Sanitized(k.majorKey) == Sanitized(p.majorKey)
    && (last != MajorKeyField ==> Sanitized(k.regionName) == Sanitized(p.regionName))
    && (last != MajorKeyField && last != RegionNameField ==> Sanitized(k.minorKey) == Sanitized(p.minorKey))
    && (last == TimestampField ==> k.timestamp == p.timestamp)
  }

  lemma PrefixSplit(a: ByteSeq, x: ByteSeq, b: ByteSeq, y: ByteSeq)
    requires |a| == |b|
    ensures a + x <= b + y <==> a == b && x <= y
  {
    if a + x <= b + y {
      forall i | 0 <= i < |a| ensures a[i] == b[i] {
        assert (a + x)[i] == (b + y)[i];
      }
      forall i | 0 <= i < |x| ensures x[i] == y[i] {
        assert (a + x)[|a| + i] == (b + y)[|a| + i];
      }
    }
  }

  lemma FieldThenRest(a: ByteSeq, x: ByteSeq)
    ensures FieldBytes(a) + x == BigEndian(SanitizeKeyLen(|a|), 2) + (Sanitized(a) + x)
  {
  }

  /** The length in front makes a field stand for itself: no field is a prefix of another. */
  lemma FieldPrefix(a: ByteSeq, x: ByteSeq, b: ByteSeq, y: ByteSeq)
    ensures FieldBytes(a) + x <= FieldBytes(b) + y <==> Sanitized(a) == Sanitized(b) && x <= y
  {
    var na, nb := SanitizeKeyLen(|a|), SanitizeKeyLen(|b|);
    var la, lb := BigEndian(na, 2), BigEndian(nb, 2);
    FieldThenRest(a, x);
    FieldThenRest(b, y);
    PrefixSplit(la, Sanitized(a) + x, lb, Sanitized(b) + y);
    BigEndianInjective(na, nb, 2);
    Pow256Values();
    if na == nb {
      PrefixSplit(Sanitized(a), x, Sanitized(b), y);
    }
  }

  /** A key prefix is a byte prefix of exactly the keys of its area. */
  lemma PrefixExact(uuid: UuidCodec, p: Key, last: Field, k: Key)
    requires uuid.Lossless()
    requires PrefixBytes(uuid, p, last).Some?
    ensures PrefixBytes(uuid, p, last).value <= EntryKeyBytes(uuid, k) <==> InArea(p, last, k)
  {
    var ts := TimestampBytes(uuid, k);
    var pre := PrefixBytes(uuid, p, last).value;
    var p2, p3 := FieldBytes(p.regionName), FieldBytes(p.minorKey);
    var k2, k3 := FieldBytes(k.regionName), FieldBytes(k.minorKey);
    var x := match last
             case MajorKeyField => []
             case RegionNameField => p2
             case MinorKeyField => p2 + p3
             case TimestampField => p2 + (p3 + uuid.marshal(p.timestamp.value));
    assert pre == FieldBytes(p.majorKey) + x;
    assert EntryKeyBytes(uuid, k) == FieldBytes(k.majorKey) + (k2 + (k3 + ts));
    FieldPrefix(p.majorKey, x, k.majorKey, k2 + (k3 + ts));
    if last != MajorKeyField {
      var x2 := if last == RegionNameField then [] else if last == MinorKeyField then p3
                else p3 + uuid.marshal(p.timestamp.value);
      assert x == p2 + x2;
      FieldPrefix(p.regionName, x2, k.regionName, k3 + ts);
      if last != RegionNameField {
        var x3 := if last == MinorKeyField then [] else uuid.marshal(p.timestamp.value);
        assert x2 == p3 + x3;
        FieldPrefix(p.minorKey, x3, k.minorKey, ts);
        if last == TimestampField {
          TimestampPrefix(uuid, p.timestamp.value, k);
        }
      }
    }
  }

  lemma TimestampPrefix(uuid: UuidCodec, t: TimeUuid, k: Key)
    requires uuid.Lossless()
    ensures uuid.marshal(t) <= TimestampBytes(uuid, k) <==> k.timestamp == Some(t)
  {
    if uuid.marshal(t) <= TimestampBytes(uuid, k) {
      assert uuid.marshal(t) == TimestampBytes(uuid, k);
    }
  }

  // ----- The codec as the layers above see it --------------------------------------

  datatype Codec = Codec(encode: Key -> ByteSeq, decode: ByteSeq -> Decoded) {
    /** Decoding gives back the stored form of the key, and keys with one stored form share an entry. */
    ghost predicate Lossless() {
      && (forall key: Key :: decode(encode(key)) == Ok(SanitizedKey(key)))
      && (forall a: Key, b: Key :: SanitizedKey(a) == SanitizedKey(b) ==> encode(a) == encode(b))
    }
  }

  function Physical(uuid: UuidCodec): Codec {
    Codec(key => EntryKeyBytes(uuid, key), b => DecodeKey(uuid, b))
  }

  lemma PhysicalLossless(uuid: UuidCodec)
    requires uuid.Lossless()
    ensures Physical(uuid).Lossless()
  {
    forall key: Key ensures DecodeKey(uuid, EntryKeyBytes(uuid, key)) == Ok(SanitizedKey(key)) {
      RoundTrip(uuid, key);
    }
    forall a: Key, b: Key | SanitizedKey(a) == SanitizedKey(b) ensures EntryKeyBytes(uuid, a) == EntryKeyBytes(uuid,
        b) {
      SameEntry(uuid, a, b);
    }
  }

  lemma SanitizedTwice(key: Key)
    ensures SanitizedKey(SanitizedKey(key)) == SanitizedKey(key)
  {
    SanitizedIdempotent(key.majorKey);
    SanitizedIdempotent(key.regionName);
    SanitizedIdempotent(key.minorKey);
  }
}
