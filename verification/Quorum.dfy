/** What a node signs: pkg/ledger/checkpoint.go and the proof of possession of pkg/ledger/ca.go. */
module Quorum {
  import opened Bytes
  import opened KeyCodec

  datatype Checkpoint = Checkpoint(height: U64, term: U64, digest: ByteSeq, unix: I64)

  type NodeId = ByteSeq
  type PublicKey = ByteSeq

  // ----- What is signed ------------------------------------------------------------------------

  function CheckpointBytes(c: Checkpoint): ByteSeq {
    BigEndian(c.height, 8) + (BigEndian(c.term, 8) + (c.digest + BigEndian(c.unix % TWO_TO_64, 8)))
  }

  function CheckpointDomain(): ByteSeq {
    Text("cdb/ledger/checkpoint/v1") + [0]
  }

  function PopDomain(): ByteSeq {
    Text("cdb/ledger/pop/v1") + [0]
  }

  function SignMessage(c: Checkpoint, id: NodeId): ByteSeq {
    CheckpointDomain() + (CheckpointBytes(c) + ([0] + id))
  }

  /** What a node signs, with the same key, to get its certificate. */
  function PopMessage(id: NodeId, pub: PublicKey): ByteSeq {
    PopDomain() + (id + ([0] + pub))
  }

  lemma UnixInjective(a: I64, b: I64)
    requires BigEndian(a % TWO_TO_64, 8) == BigEndian(b % TWO_TO_64, 8)
    ensures a == b
  {
    U64Injective(a % TWO_TO_64, b % TWO_TO_64);
  }

  lemma CheckpointBytesInjective(a: Checkpoint, b: Checkpoint)
    requires CheckpointBytes(a) == CheckpointBytes(b)
    ensures a == b
  {
    var ua, ub := BigEndian(a.unix % TWO_TO_64, 8), BigEndian(b.unix % TWO_TO_64, 8);
    NumberThenRest(a.height, BigEndian(a.term, 8) + (a.digest + ua), b.height, BigEndian(b.term, 8) + (b.digest + ub));
    NumberThenRest(a.term, a.digest + ua, b.term, b.digest + ub);
    assert |a.digest + ua| == |b.digest + ub|;
    SplitEqual(a.digest, ua, b.digest, ub);
    UnixInjective(a.unix, b.unix);
  }

  lemma TailEqual(a: ByteSeq, x: ByteSeq, b: ByteSeq, y: ByteSeq)
    requires |x| == |y| && a + x == b + y
    ensures a == b && x == y
  {
    assert |a| == |b|;
    SplitEqual(a, x, b, y);
  }

  lemma SignMessageLength(c: Checkpoint, id: NodeId)
    ensures |SignMessage(c, id)| == |CheckpointDomain()| + 25 + |c.digest| + |id|
  {
  }

  /** Messages whose digests have one length, or whose digests and ids together do not, tell
      checkpoint and signer apart: so one signer's checkpoints, and one checkpoint's signers. */
  lemma SignMessageInjective(a: Checkpoint, x: NodeId, b: Checkpoint, y: NodeId)
    requires |a.digest| == |b.digest| || |a.digest| + |x| != |b.digest| + |y|
    ensures SignMessage(a, x) == SignMessage(b, y) <==> a == b && x == y
  {
    SignMessageLength(a, x);
    SignMessageLength(b, y);
    if SignMessage(a, x) == SignMessage(b, y) {
      SplitEqual(CheckpointDomain(), CheckpointBytes(a) + ([0] + x), CheckpointDomain(),
                 CheckpointBytes(b) + ([0] + y));
      TailEqual(CheckpointBytes(a), [0] + x, CheckpointBytes(b), [0] + y);
      SplitEqual([0], x, [0], y);
      CheckpointBytesInjective(a, b);
    }
  }

  lemma ZeroMessage(height: U64, term: U64, m: nat, i: nat)
    ensures SignMessage(Checkpoint(height, term, Zeros(m), 0), Zeros(i))
            == CheckpointDomain() + (BigEndian(height, 8) + BigEndian(term, 8) + Zeros(m + i + 9))
  {
    var h, t, z := BigEndian(height, 8), BigEndian(term, 8), BigEndian(0, 8);
    BigEndianZero(8);
    assert Zeros(m) + z + [0] + Zeros(i) == Zeros(m + i + 9);
    assert h + (t + (Zeros(m) + z)) + ([0] + Zeros(i)) == h + t + (Zeros(m) + z + [0] + Zeros(i));
  }

  /** Otherwise the bytes are ambiguous: what one digest has more, the other id can have. */
  lemma SignMessageAmbiguous(height: U64, term: U64, m: nat, i: nat, n: nat, j: nat)
    requires m != n && m + i == n + j
    ensures var a, b := Checkpoint(height, term, Zeros(m), 0), Checkpoint(height, term, Zeros(n), 0);
            SignMessage(a, Zeros(i)) == SignMessage(b, Zeros(j)) && a != b
  {
    ZeroMessage(height, term, m, i);
    ZeroMessage(height, term, n, j);
    assert |Zeros(m)| != |Zeros(n)|;
  }

  /** Messages with digests of m and n bytes and ids of i and j bytes are never confused. */
  ghost predicate ToldApart(m: nat, i: nat, n: nat, j: nat) {
    forall a: Checkpoint, x: NodeId, b: Checkpoint, y: NodeId ::
      |a.digest| == m && |x| == i && |b.digest| == n && |y| == j && SignMessage(a, x) == SignMessage(b, y) ==>
        a == b && x == y
  }

  /** Lengths decide it. */
  lemma ToldApartExactly(m: nat, i: nat, n: nat, j: nat)
    ensures ToldApart(m, i, n, j) <==> m == n || m + i != n + j
  {
    if m == n || m + i != n + j {
      forall a: Checkpoint, x: NodeId, b: Checkpoint, y: NodeId |
        |a.digest| == m && |x| == i && |b.digest| == n && |y| == j && SignMessage(a, x) == SignMessage(b, y)
        ensures a == b && x == y
      {
        SignMessageInjective(a, x, b, y);
      }
    } else {
      SignMessageAmbiguous(0, 0, m, i, n, j);
      var a, b := Checkpoint(0, 0, Zeros(m), 0), Checkpoint(0, 0, Zeros(n), 0);
      assert SignMessage(a, Zeros(i)) == SignMessage(b, Zeros(j)) && a != b;
    }
  }

  lemma SevenParts(d: ByteSeq, x: ByteSeq, t: ByteSeq, g: ByteSeq, u: ByteSeq, id: ByteSeq)
    requires |x| == |t| == |u| == 8
    ensures var b, at, n := d + (x + (t + (g + u)) + ([0] + id)), |d|, |g|;
            && |b| == at + n + 25 + |id| && b[..at] == d && b[at..at + 8] == x && b[at + 8..at + 16] == t
            && b[at + 16..at + 16 + n] == g && b[at + 16 + n..at + 24 + n] == u
            && b[at + 24 + n] == 0 && b[at + 25 + n..] == id
  {
  }

  /** Where the parts of a signed message are: the domain, height and term, the digest, the time, and
      after a zero byte the signer. */
  lemma SignMessageLayout(c: Checkpoint, id: NodeId)
    ensures var b, d, n := SignMessage(c, id), Text("cdb/ledger/checkpoint/v1") + [0], |c.digest|;
            var at := |d|;
            && |b| == at + n + 25 + |id| && b[..at] == d
            && Uint(b[at..at + 8]) == c.height && Uint(b[at + 8..at + 16]) == c.term
            && b[at + 16..at + 16 + n] == c.digest
            && Uint(b[at + 16 + n..at + 24 + n]) == c.unix % TWO_TO_64
            && b[at + 24 + n] == 0 && b[at + 25 + n..] == id
  {
    var x, t, u := BigEndian(c.height, 8), BigEndian(c.term, 8), BigEndian(c.unix % TWO_TO_64, 8);
    SevenParts(CheckpointDomain(), x, t, c.digest, u, id);
    UintOfU64(c.height);
    UintOfU64(c.term);
    UintOfU64(c.unix % TWO_TO_64);
  }

  /** And of a proof of possession: the domain, the id and, after a zero byte, the key. */
  lemma PopMessageLayout(id: NodeId, pub: PublicKey)
    ensures var b, d, n := PopMessage(id, pub), Text("cdb/ledger/pop/v1") + [0], |id|;
            var at := |d|;
            && |b| == at + n + 1 + |pub| && b[..at] == d
            && b[at..at + n] == id && b[at + n] == 0 && b[at + n + 1..] == pub
  {
    var d := PopDomain();
    Parts(d, id, [0] + pub);
    assert PopMessage(id, pub) == (d + id) + ([0] + pub);
    Parts(d + id, [0], pub);
  }

  lemma DomainAt(s: string)
    requires |s| > 11
    ensures (Text(s) + [0])[11] == s[11] as int % 256
  {
  }

  lemma FirstBytes(a: ByteSeq, x: ByteSeq, b: ByteSeq, y: ByteSeq, i: nat)
    requires i < |a| && i < |b| && a[i] != b[i]
    ensures a + x != b + y
  {
    assert (a + x)[i] != (b + y)[i];
  }

  /** No proof of possession can pass for a checkpoint signature. */
  lemma DomainsDiffer(c: Checkpoint, x: NodeId, y: NodeId, pub: PublicKey)
    ensures SignMessage(c, x) != PopMessage(y, pub)
  {
    DomainAt("cdb/ledger/checkpoint/v1");
    DomainAt("cdb/ledger/pop/v1");
    FirstBytes(CheckpointDomain(), CheckpointBytes(c) + ([0] + x), PopDomain(), y + ([0] + pub), 11);
  }
}
