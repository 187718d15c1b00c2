/** Building and verifying quorum certificates: pkg/ledger/checkpoint.go, ca.go, bls.go and verify.go. */
module Certificates {
  import opened Bytes
  import opened KeyCodec
  import opened OrderedKeys
  import opened Quorum

  datatype Signature = Signature(pub: PublicKey, msg: ByteSeq)

  ghost predicate Distinct<T>(s: seq<T>) {
    forall i, j :: 0 <= i < j < |s| ==> s[i] != s[j]
  }

  /** BLS signing and distinct-message aggregation (section 3.1 of draft-irtf-cfrg-bls-signature),
      with the bytes a node signs for a checkpoint. */
  datatype Bls = Bls(message: (Checkpoint, NodeId) -> ByteSeq,
                     sign: (PublicKey, ByteSeq) -> ByteSeq, aggregate: seq<ByteSeq> -> Option<ByteSeq>,
                     verifyAggregate: (seq<PublicKey>, seq<ByteSeq>, ByteSeq) -> bool)
  {
    /** The messages are those of Quorum.SignMessage. */
    ghost predicate Canonical() {
      message == SignMessage
    }

    /** An aggregate over distinct messages verifies only if every listed signature was made. */
    ghost predicate Unforgeable(signed: set<Signature>) {
      forall pubs, msgs, agg :: |pubs| == |msgs| && Distinct(msgs) && verifyAggregate(pubs, msgs, agg) ==>
        forall i :: 0 <= i < |pubs| ==> Signature(pubs[i], msgs[i]) in signed
    }

    /** sigs are signatures that were made, one for each key and message, all messages distinct. */
    ghost predicate Made(signed: set<Signature>, pubs: seq<PublicKey>, msgs: seq<ByteSeq>, sigs: seq<ByteSeq>) {
      && 0 < |pubs| == |msgs| == |sigs| && Distinct(msgs)
      && (forall i :: 0 <= i < |pubs| ==>
            Signature(pubs[i], msgs[i]) in signed && sigs[i] == sign(pubs[i], msgs[i]))
    }

    /** Signatures that were made aggregate to something that verifies. */
    ghost predicate Complete(signed: set<Signature>) {
      forall pubs, msgs, sigs {:trigger Made(signed, pubs, msgs, sigs)} :: Made(signed, pubs, msgs, sigs) ==>
        aggregate(sigs).Some? && verifyAggregate(pubs, msgs, aggregate(sigs).value)
    }
  }

  /** Such a scheme is possible, whatever has been signed. */
  lemma IdealScheme(signed: set<Signature>) returns (bls: Bls)
    ensures bls.Canonical() && bls.Unforgeable(signed) && bls.Complete(signed)
    ensures forall pub, msg, agg :: Signature(pub, msg) in signed ==> bls.verifyAggregate([pub], [msg], agg)
  {
    bls := Bls(SignMessage, (p, m) => m, sigs => Some([]),
               (pubs, msgs, agg) => |pubs| == |msgs| && forall i :: 0 <= i < |pubs| ==>
                 Signature(pubs[i], msgs[i]) in signed);
  }

  datatype NodeCert = NodeCert(nodeId: NodeId, publicKey: PublicKey, notAfter: I64)

  const PUBLIC_KEY_SIZE := 96

  function CertDomain(): ByteSeq {
    Text("cdb/ledger/nodecert/v1") + [0]
  }

  /** What the CA signs. */
  function CertBody(cert: NodeCert): ByteSeq {
    CertDomain() + (cert.nodeId + ([0] + (cert.publicKey + BigEndian(cert.notAfter % TWO_TO_64, 8))))
  }

  /** The ledger CA's public key, by the certificates whose signature it confirms; wellFormed is
      the check that the bytes are a valid curve point. */
  datatype CertAuthority = CertAuthority(confirms: NodeCert -> bool, wellFormed: PublicKey -> bool) {
    ghost predicate Sized() {
      forall pub :: wellFormed(pub) ==> |pub| == PUBLIC_KEY_SIZE
    }

    function Verify(cert: NodeCert, now: I64): Option<PublicKey> {
      if cert.notAfter != 0 && now != 0 && now > cert.notAfter then None
      else if !confirms(cert) then None
      else if !wellFormed(cert.publicKey) then None
      else Some(cert.publicKey)
    }
  }

  /** Between keys of one length, or with ids so that the totals differ, the signed body determines
      the certificate. */
  lemma CertBodyInjective(a: NodeCert, b: NodeCert)
    requires |a.publicKey| == |b.publicKey| || |a.nodeId| + |a.publicKey| != |b.nodeId| + |b.publicKey|
    ensures CertBody(a) == CertBody(b) <==> a == b
  {
    assert |CertBody(a)| == |CertDomain()| + 9 + |a.nodeId| + |a.publicKey|;
    assert |CertBody(b)| == |CertDomain()| + 9 + |b.nodeId| + |b.publicKey|;
    if CertBody(a) == CertBody(b) {
      var ta, tb := BigEndian(a.notAfter % TWO_TO_64, 8), BigEndian(b.notAfter % TWO_TO_64, 8);
      var ra, rb := [0] + (a.publicKey + ta), [0] + (b.publicKey + tb);
      SplitEqual(CertDomain(), a.nodeId + ra, CertDomain(), b.nodeId + rb);
      TailEqual(a.nodeId, ra, b.nodeId, rb);
      SplitEqual([0], a.publicKey + ta, [0], b.publicKey + tb);
      TailEqual(a.publicKey, ta, b.publicKey, tb);
      UnixInjective(a.notAfter, b.notAfter);
    }
  }

  /** Where its parts are: the domain, the id, after a zero byte the key, and the expiry. */
  lemma CertBodyLayout(cert: NodeCert)
    ensures var b, d, n, m := CertBody(cert), Text("cdb/ledger/nodecert/v1") + [0], |cert.nodeId|, |cert.publicKey|;
            var at := |d|;
            && |b| == at + n + m + 9 && b[..at] == d
            && b[at..at + n] == cert.nodeId && b[at + n] == 0
            && b[at + n + 1..at + n + 1 + m] == cert.publicKey
            && Uint(b[at + n + 1 + m..]) == cert.notAfter % TWO_TO_64
  {
    var d, t := CertDomain(), BigEndian(cert.notAfter % TWO_TO_64, 8);
    var b := CertBody(cert);
    Parts(d, cert.nodeId, [0] + (cert.publicKey + t));
    assert b == (d + cert.nodeId) + ([0] + (cert.publicKey + t));
    Parts(d + cert.nodeId, [0], cert.publicKey + t);
    assert b == (d + cert.nodeId + [0]) + (cert.publicKey + t);
    Parts(d + cert.nodeId + [0], cert.publicKey, t);
    UintOfU64(cert.notAfter % TWO_TO_64);
  }

  lemma ZeroBody(i: nat, m: nat)
    ensures CertBody(NodeCert(Zeros(i), Zeros(m), 0)) == CertDomain() + Zeros(i + m + 9)
  {
    BigEndianZero(8);
    assert Zeros(i) + ([0] + (Zeros(m) + BigEndian(0, 8))) == Zeros(i + m + 9);
  }

  /** Bodies with ids of i and j bytes and keys of m and n bytes are never confused. */
  ghost predicate BodiesApart(i: nat, m: nat, j: nat, n: nat) {
    forall a: NodeCert, b: NodeCert ::
      |a.nodeId| == i && |a.publicKey| == m && |b.nodeId| == j && |b.publicKey| == n && CertBody(a) == CertBody(b) ==>
        a == b
  }

  /** Lengths decide that too. */
  lemma BodiesApartExactly(i: nat, m: nat, j: nat, n: nat)
    ensures BodiesApart(i, m, j, n) <==> m == n || i + m != j + n
  {
    if m == n || i + m != j + n {
      forall a: NodeCert, b: NodeCert |
        |a.nodeId| == i && |a.publicKey| == m && |b.nodeId| == j && |b.publicKey| == n && CertBody(a) == CertBody(b)
        ensures a == b
      {
        CertBodyInjective(a, b);
      }
    } else {
      ZeroBody(i, m);
      ZeroBody(j, n);
      var a, b := NodeCert(Zeros(i), Zeros(m), 0), NodeCert(Zeros(j), Zeros(n), 0);
      assert |a.publicKey| != |b.publicKey| && CertBody(a) == CertBody(b);
    }
  }

  datatype QuorumCertificate = QuorumCertificate(checkpoint: Checkpoint, signers: seq<NodeId>, aggSig: ByteSeq)

  // ----- Verification -----------------------------------------------------------------------------

  /** Not expired by now; 0 for either means no limit. */
  predicate InForce(cert: NodeCert, now: I64) {
    now == 0 || cert.notAfter == 0 || now <= cert.notAfter
  }

  /** The bundle has a certificate of the node that the CA signed, over a proper key, in force now. */
  predicate Certified(ca: CertAuthority, certs: map<NodeId, NodeCert>, now: I64, id: NodeId) {
    id in certs && ca.confirms(certs[id]) && ca.wellFormed(certs[id].publicKey) && InForce(certs[id], now)
  }

  function Keys(certs: map<NodeId, NodeCert>, ids: seq<NodeId>): (pubs: seq<PublicKey>)
    requires forall i :: 0 <= i < |ids| ==> ids[i] in certs
    ensures |pubs| == |ids| && forall i :: 0 <= i < |ids| ==> pubs[i] == certs[ids[i]].publicKey
  {
    if ids == [] then [] else Keys(certs, ids[..|ids| - 1]) + [certs[ids[|ids| - 1]].publicKey]
  }

  function Messages(bls: Bls, c: Checkpoint, ids: seq<NodeId>): (msgs: seq<ByteSeq>)
    ensures |msgs| == |ids| && forall i :: 0 <= i < |ids| ==> msgs[i] == bls.message(c, ids[i])
  {
    if ids == [] then [] else Messages(bls, c, ids[..|ids| - 1]) + [bls.message(c, ids[|ids| - 1])]
  }

  /** Distinct ids, each with a certificate the CA vouches for. */
  ghost predicate Listed(ca: CertAuthority, certs: map<NodeId, NodeCert>, now: I64, ids: seq<NodeId>) {
    Distinct(ids) && forall i :: 0 <= i < |ids| ==> Certified(ca, certs, now, ids[i])
  }

  /** A certificate stands when enough distinct certified nodes signed exactly its checkpoint. */
  ghost predicate Stands(bls: Bls, ca: CertAuthority, qc: QuorumCertificate, certs: map<NodeId, NodeCert>,
                         threshold: int, now: I64) {
    && qc.signers != [] && |qc.signers| >= threshold && Listed(ca, certs, now, qc.signers)
    && bls.verifyAggregate(Keys(certs, qc.signers), Messages(bls, qc.checkpoint, qc.signers), qc.aggSig)
  }

  /** The loop over the signers has taken the first i of them. */
  ghost predicate Taken(bls: Bls, ca: CertAuthority, c: Checkpoint, certs: map<NodeId, NodeCert>, now: I64,
                        ids: seq<NodeId>, seen: set<NodeId>, pubs: seq<PublicKey>, msgs: seq<ByteSeq>) {
    && Listed(ca, certs, now, ids) && (forall id :: id in seen <==> id in ids)
    && pubs == Keys(certs, ids) && msgs == Messages(bls, c, ids)
  }

  lemma TakeOne(bls: Bls, ca: CertAuthority, c: Checkpoint, certs: map<NodeId, NodeCert>, now: I64,
                ids: seq<NodeId>, seen: set<NodeId>, pubs: seq<PublicKey>, msgs: seq<ByteSeq>, id: NodeId)
    requires Taken(bls, ca, c, certs, now, ids, seen, pubs, msgs) && id !in seen && Certified(ca, certs, now, id)
    ensures Taken(bls, ca, c, certs, now, ids + [id], seen + {id}, pubs + [certs[id].publicKey],
                  msgs + [bls.message(c, id)])
  {
    var more := ids + [id];
    assert more[..|ids|] == ids;
    forall i, j | 0 <= i < j < |more| ensures more[i] != more[j] {
      assert more[i] == ids[i] && ids[i] in seen;
    }
  }

  /** A signer listed twice, or not certified, is enough to fail. */
  lemma Unlisted(ca: CertAuthority, certs: map<NodeId, NodeCert>, now: I64, ids: seq<NodeId>, i: nat)
    requires i < |ids| && (ids[i] in ids[..i] || !Certified(ca, certs, now, ids[i]))
    ensures !Listed(ca, certs, now, ids)
  {
  }

  method VerifyQuorum(bls: Bls, ca: CertAuthority, qc: QuorumCertificate, certs: map<NodeId, NodeCert>, threshold: int,
                      now: I64)
    returns (ok: bool)
    ensures ok <==> Stands(bls, ca, qc, certs, threshold, now)
  {
    if |qc.signers| == 0 {
      return false;
    }
    if |qc.signers| < threshold {
      return false;
    }
    var seen: set<NodeId> := {};
    var pubs: seq<PublicKey> := [];
    var msgs: seq<ByteSeq> := [];
    for i := 0 to |qc.signers|
      invariant Taken(bls, ca, qc.checkpoint, certs, now, qc.signers[..i], seen, pubs, msgs)
    {
      var id := qc.signers[i];
      if id in seen {
        Unlisted(ca, certs, now, qc.signers, i);
        return false;
      }
      if id !in certs {
        Unlisted(ca, certs, now, qc.signers, i);
        return false;
      }
      var pub := ca.Verify(certs[id], now);
      if pub.None? {
        Unlisted(ca, certs, now, qc.signers, i);
        return false;
      }
      TakeOne(bls, ca, qc.checkpoint, certs, now, qc.signers[..i], seen, pubs, msgs, id);
      assert qc.signers[..i + 1] == qc.signers[..i] + [id];
      seen := seen + {id};
      pubs := pubs + [pub.value];
      msgs := msgs + [bls.message(qc.checkpoint, id)];
    }
    assert qc.signers[..|qc.signers|] == qc.signers;
    return bls.verifyAggregate(pubs, msgs, qc.aggSig);
  }

  /** Time enters only through the signers' certificates: at now a certificate stands exactly when
      it does with no clock and none of them has expired, and however late it is verified every
      signer has a certificate of its own that the CA signed over a proper key. */
  lemma ExpiryDecides(bls: Bls, ca: CertAuthority, qc: QuorumCertificate, certs: map<NodeId, NodeCert>,
                      threshold: int, now: I64)
    ensures Stands(bls, ca, qc, certs, threshold, now)
            <==> && Stands(bls, ca, qc, certs, threshold, 0)
                 && (forall id :: id in qc.signers ==> now == 0 || certs[id].notAfter == 0 || now <= certs[id].notAfter)
    ensures Stands(bls, ca, qc, certs, threshold, now) ==>
              forall id :: id in qc.signers ==>
                id in certs && ca.confirms(certs[id]) && ca.wellFormed(certs[id].publicKey)
  {
    forall i | 0 <= i < |qc.signers|
      ensures Certified(ca, certs, now, qc.signers[i])
              <==> Certified(ca, certs, 0, qc.signers[i]) && InForce(certs[qc.signers[i]], now)
    {
      assert qc.signers[i] in qc.signers;
    }
  }

  /** Distinct signers sign distinct messages, so the aggregate check is the rogue-key-safe one. */
  lemma MessagesDistinct(bls: Bls, c: Checkpoint, ids: seq<NodeId>)
    requires bls.Canonical() && Distinct(ids)
    ensures Distinct(Messages(bls, c, ids))
  {
    forall i, j | 0 <= i < j < |ids| ensures bls.message(c, ids[i]) != bls.message(c, ids[j]) {
      SignMessageInjective(c, ids[i], c, ids[j]);
    }
  }

  /** Every signer of a certificate that stands signed its checkpoint with its certified key. */
  lemma SignersSigned(bls: Bls, ca: CertAuthority, qc: QuorumCertificate, certs: map<NodeId, NodeCert>,
                      threshold: int, now: I64,
                      signed: set<Signature>, id: NodeId)
    requires bls.Canonical() && bls.Unforgeable(signed) && Stands(bls, ca, qc, certs, threshold, now)
        && id in qc.signers
    ensures Certified(ca, certs, now, id)
    ensures Signature(certs[id].publicKey, bls.message(qc.checkpoint, id)) in signed
  {
    MessagesDistinct(bls, qc.checkpoint, qc.signers);
    var i :| 0 <= i < |qc.signers| && qc.signers[i] == id;
    var pubs, msgs := Keys(certs, qc.signers), Messages(bls, qc.checkpoint, qc.signers);
    assert Signature(pubs[i], msgs[i]) in signed;
  }

  // ----- Building ------------------------------------------------------------------------------------

  /** The loop that collects the signatures in the order of the ids. */
  method InOrder(sigs: map<NodeId, ByteSeq>, ids: seq<NodeId>) returns (ordered: seq<ByteSeq>)
    requires forall i :: 0 <= i < |ids| ==> ids[i] in sigs
    ensures ordered == Ordered(sigs, ids)
  {
    ordered := [];
    for i := 0 to |ids|
      invariant ordered == Ordered(sigs, ids[..i])
    {
      assert ids[..i + 1][..i] == ids[..i];
      ordered := ordered + [sigs[ids[i]]];
    }
    assert ids[..|ids|] == ids;
  }

  /** Signers in ascending order, so equal inputs give equal certificates. */
  method BuildQuorumCertificate(bls: Bls, c: Checkpoint,
                                sigs: map<NodeId, ByteSeq>) returns (qc: Option<QuorumCertificate>)
    ensures qc.None? <==> |sigs| == 0 || bls.aggregate(Ordered(sigs, Ascending(sigs.Keys))).None?
    ensures qc.Some? ==>
              && qc.value.checkpoint == c && qc.value.signers == Ascending(sigs.Keys)
              && Lists(qc.value.signers, sigs)
              && Some(qc.value.aggSig) == bls.aggregate(Ordered(sigs, qc.value.signers))
  {
    if |sigs| == 0 {
      return None;
    }
    var ids := Ascending(sigs.Keys);
    AscendingLists(sigs);
    var ordered := InOrder(sigs, ids);
    var agg := bls.aggregate(ordered);
    if agg.None? {
      return None;
    }
    return Some(QuorumCertificate(c, ids, agg.value));
  }

  function Ordered(sigs: map<NodeId, ByteSeq>, ids: seq<NodeId>): (out: seq<ByteSeq>)
    requires forall i :: 0 <= i < |ids| ==> ids[i] in sigs
    ensures |out| == |ids| && forall i :: 0 <= i < |ids| ==> out[i] == sigs[ids[i]]
  {
    if ids == [] then [] else Ordered(sigs, ids[..|ids| - 1]) + [sigs[ids[|ids| - 1]]]
  }

  /** The node's certified key did sign c, and this is that signature. */
  ghost predicate Attested(bls: Bls, certs: map<NodeId, NodeCert>, signed: set<Signature>, c: Checkpoint, id: NodeId,
                           sig: ByteSeq) {
    && id in certs
    && Signature(certs[id].publicKey, bls.message(c, id)) in signed
    && sig == bls.sign(certs[id].publicKey, bls.message(c, id))
  }

  lemma AttestedAggregate(bls: Bls, c: Checkpoint, sigs: map<NodeId, ByteSeq>, certs: map<NodeId, NodeCert>,
                          signed: set<Signature>, ids: seq<NodeId>)
    requires bls.Canonical() && bls.Complete(signed) && ids != [] && Distinct(ids)
    requires forall i :: 0 <= i < |ids| ==> ids[i] in sigs && Attested(bls, certs, signed, c, ids[i], sigs[ids[i]])
    ensures forall i :: 0 <= i < |ids| ==> ids[i] in certs
    ensures var agg := bls.aggregate(Ordered(sigs, ids));
            agg.Some? && bls.verifyAggregate(Keys(certs, ids), Messages(bls, c, ids), agg.value)
  {
    MessagesDistinct(bls, c, ids);
    var pubs, msgs, ordered := Keys(certs, ids), Messages(bls, c, ids), Ordered(sigs, ids);
    assert bls.Made(signed, pubs, msgs, ordered);
  }

  lemma AttestedStands(bls: Bls, ca: CertAuthority, c: Checkpoint, sigs: map<NodeId, ByteSeq>,
                       certs: map<NodeId, NodeCert>,
                       signed: set<Signature>, threshold: int, now: I64, ids: seq<NodeId>)
    requires bls.Canonical() && bls.Complete(signed) && ids != [] && threshold <= |ids| && Distinct(ids)
    requires forall i :: 0 <= i < |ids| ==> Certified(ca, certs, now, ids[i])
    requires forall i :: 0 <= i < |ids| ==> ids[i] in sigs && Attested(bls, certs, signed, c, ids[i], sigs[ids[i]])
    ensures var agg := bls.aggregate(Ordered(sigs, ids));
            agg.Some? && Stands(bls, ca, QuorumCertificate(c, ids, agg.value), certs, threshold, now)
  {
    AttestedAggregate(bls, c, sigs, certs, signed, ids);
  }

  /** A certificate built from genuine attestations of one checkpoint verifies at any threshold
      the number of attestations meets. */
  lemma BuiltStands(bls: Bls, ca: CertAuthority, c: Checkpoint, sigs: map<NodeId, ByteSeq>,
                    certs: map<NodeId, NodeCert>,
                    signed: set<Signature>, threshold: int, now: I64, ids: seq<NodeId>)
    requires bls.Canonical() && bls.Complete(signed) && |sigs| > 0 && threshold <= |sigs| && Lists(ids, sigs)
    requires forall id :: id in sigs ==> Certified(ca, certs, now, id)
    requires forall id :: id in sigs ==> Attested(bls, certs, signed, c, id, sigs[id])
    ensures var agg := bls.aggregate(Ordered(sigs, ids));
            agg.Some? && Stands(bls, ca, QuorumCertificate(c, ids, agg.value), certs, threshold, now)
  {
    AttestedStands(bls, ca, c, sigs, certs, signed, threshold, now, ids);
  }

  /** ids names each signer once. */
  ghost predicate Lists(ids: seq<NodeId>, sigs: map<NodeId, ByteSeq>) {
    && |ids| == |sigs| && Distinct(ids)
    && (forall i :: 0 <= i < |ids| ==> ids[i] in sigs)
  }

  lemma AscendingDistinct(s: set<ByteSeq>)
    ensures Distinct(Ascending(s))
  {
  }

  lemma {:induction false} AscendingLength(s: set<ByteSeq>)
    ensures |Ascending(s)| == |s|
    decreases |s|
  {
    if s != {} {
      LeastUnique(s);
      var m := LeastExists(s);
      AscendingLength(s - {m});
      assert Ascending(s) == [m] + Ascending(s - {m});
    }
  }

  lemma AscendingLists(sigs: map<NodeId, ByteSeq>)
    ensures Lists(Ascending(sigs.Keys), sigs)
  {
    AscendingLength(sigs.Keys);
    AscendingDistinct(sigs.Keys);
  }
}
