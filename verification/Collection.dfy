/** Collecting co-signatures from the live cluster: the two passes of ledgerMaterials in
    pkg/console/ledger.go. */
module Collection {
  import opened Bytes
  import opened KeyCodec
  import opened HashChain
  import opened Quorum
  import opened Certificates
  import opened LedgerProtocol

  /** A member's reply: signature and cert are None where their encoding was malformed. */
  datatype Reply =
    | Unreachable
    | Reply(nodeId: NodeId, height: U64, digest: ByteSeq, signature: Option<ByteSeq>, cert: Option<ByteSeq>,
        signed: bool)

  predicate Usable(r: Reply) {
    r.Reply? && r.signed && r.signature.Some? && r.cert.Some? && r.nodeId != []
  }

  predicate Diverges(c: Checkpoint, r: Reply) {
    r.Reply? && !r.signed && (r.height != c.height || r.digest != c.digest)
  }

  lemma DivergesStep(c: Checkpoint, replies: seq<Reply>, n: nat)
    requires n < |replies|
    ensures AnyDiverges(c, replies[..n + 1]) <==> AnyDiverges(c, replies[..n]) || Diverges(c, replies[n])
  {
    assert replies[..n + 1][n] == replies[n];
    assert forall i :: 0 <= i < n ==> replies[..n + 1][i] == replies[..n][i];
  }

  ghost predicate AnyDiverges(c: Checkpoint, replies: seq<Reply>) {
    exists i :: 0 <= i < |replies| && Diverges(c, replies[i])
  }

  /** Position of the last usable reply of a node among the first n replies, or -1. */
  function LastReply(replies: seq<Reply>, n: nat, id: NodeId): (p: int)
    requires n <= |replies|
    ensures p == -1 ==> forall i :: 0 <= i < n && Usable(replies[i]) ==> replies[i].nodeId != id
    ensures p != -1 ==>
              && 0 <= p < n && Usable(replies[p]) && replies[p].nodeId == id
              && forall i :: p < i < n && Usable(replies[i]) ==> replies[i].nodeId != id
  {
    if n == 0 then -1
    else if Usable(replies[n - 1]) && replies[n - 1].nodeId == id then n - 1
    else LastReply(replies, n - 1, id)
  }

  /** The usable ones among the first n replies, in order. */
  function Usables(replies: seq<Reply>, n: nat): (us: seq<Reply>)
    requires n <= |replies|
    ensures forall i :: 0 <= i < |us| ==> Usable(us[i]) && us[i] in replies[..n]
    ensures forall i :: 0 <= i < n && Usable(replies[i]) ==> replies[i] in us
  {
    if n == 0 then []
    else
      var us := Usables(replies, n - 1);
      assert replies[..n] == replies[..n - 1] + [replies[n - 1]];
      if Usable(replies[n - 1]) then us + [replies[n - 1]] else us
  }

  /** Each usable reply has its node listed and its certificate kept, in order. */
  ghost predicate Credited(us: seq<Reply>, signers: seq<NodeId>, certs: seq<ByteSeq>) {
    && |signers| == |us| == |certs|
    && (forall i :: 0 <= i < |us| ==> us[i].Reply? && signers[i] == us[i].nodeId && us[i].cert == Some(certs[i]))
  }

  /** sigs holds exactly the last usable signature of each node that gave one. */
  ghost predicate Gathered(replies: seq<Reply>, n: nat, sigs: map<NodeId, ByteSeq>)
    requires n <= |replies|
  {
    forall id :: && (id in sigs <==> LastReply(replies, n, id) != -1)
                 && (id in sigs ==> Some(sigs[id]) == replies[LastReply(replies, n, id)].signature)
  }

  lemma CreditedStep(replies: seq<Reply>, n: nat, signers: seq<NodeId>, certs: seq<ByteSeq>)
    requires n < |replies| && Credited(Usables(replies, n), signers, certs)
    ensures var r := replies[n];
            if Usable(r) then Credited(Usables(replies, n + 1), signers + [r.nodeId], certs + [r.cert.value])
            else Credited(Usables(replies, n + 1), signers, certs)
  {
  }

  lemma GatheredStep(replies: seq<Reply>, n: nat, sigs: map<NodeId, ByteSeq>)
    requires n < |replies| && Gathered(replies, n, sigs)
    ensures Gathered(replies, n + 1, if Usable(replies[n])
        then sigs[replies[n].nodeId := replies[n].signature.value] else sigs)
  {
  }

  /** One pass over the members' replies to the stamped checkpoint. */
  method CollectOnce(ckpt: Checkpoint, replies: seq<Reply>)
    returns (sigs: map<NodeId, ByteSeq>, certs: seq<ByteSeq>, signers: seq<NodeId>, diverged: bool)
    ensures Gathered(replies, |replies|, sigs)
    ensures diverged <==> AnyDiverges(ckpt, replies)
    ensures Credited(Usables(replies, |replies|), signers, certs)
  {
    sigs, certs, signers, diverged := map[], [], [], false;
    for i := 0 to |replies|
      invariant Gathered(replies, i, sigs)
      invariant diverged <==> AnyDiverges(ckpt, replies[..i])
      invariant Credited(Usables(replies, i), signers, certs)
    {
      GatheredStep(replies, i, sigs);
      CreditedStep(replies, i, signers, certs);
      DivergesStep(ckpt, replies, i);
      var d := replies[i];
      if d.Unreachable? {
        continue;
      }
      if !d.signed {
        if d.height != ckpt.height || d.digest != ckpt.digest {
          diverged := true;
        }
        continue;
      }
      if d.signature.None? || d.cert.None? || d.nodeId == [] {
        continue;
      }
      sigs := sigs[d.nodeId := d.signature.value];
      certs := certs + [d.cert.value];
      signers := signers + [d.nodeId];
    }
    assert replies[..|replies|] == replies;
  }

  /** The whole collection. own gives the node's own stamped head at each pass and ask what the
      members then reply to it; a second pass starts over when a member's head differed. */
  method CollectMaterials(own: nat -> Checkpoint, ask: (nat, Checkpoint) -> seq<Reply>)
    returns (ckpt: Checkpoint, sigs: map<NodeId, ByteSeq>, certs: seq<ByteSeq>, signers: seq<NodeId>)
    ensures var pass := if AnyDiverges(own(0), ask(0, own(0))) then 1 else 0;
            && ckpt == own(pass) && Gathered(ask(pass, ckpt), |ask(pass, ckpt)|, sigs)
            && Credited(Usables(ask(pass, ckpt), |ask(pass, ckpt)|), signers, certs)
    ensures forall id :: id in sigs ==> id != []
  {
    ckpt, sigs, certs, signers := own(0), map[], [], [];
    var attempt, diverged := 0, true;
    while attempt < 2 && diverged
      invariant 0 <= attempt <= 2
      invariant attempt == 0 ==> diverged
      invariant attempt > 0 ==> ckpt == own(attempt - 1)
      invariant attempt > 0 ==> Gathered(ask(attempt - 1, ckpt), |ask(attempt - 1, ckpt)|, sigs)
      invariant attempt > 0 ==>
          Credited(Usables(ask(attempt - 1, ckpt), |ask(attempt - 1, ckpt)|), signers, certs)
      invariant attempt == 1 ==> (diverged <==> AnyDiverges(own(0), ask(0, own(0))))
      invariant attempt == 2 ==> AnyDiverges(own(0), ask(0, own(0)))
      decreases 2 - attempt
    {
      ckpt := own(attempt);
      var replies := ask(attempt, ckpt);
      sigs, certs, signers, diverged := CollectOnce(ckpt, replies);
      attempt := attempt + 1;
    }
  }

  /** The reply is signed, whole and from the node. */
  predicate SignedBy(r: Reply, id: NodeId) {
    r.Reply? && r.signed && r.signature.Some? && r.cert.Some? && r.nodeId == id && id != []
  }

  /** A node's signature is kept exactly when one of its replies is signed and whole, and it is then
      that of the last such reply. */
  lemma GatheredExactly(replies: seq<Reply>, sigs: map<NodeId, ByteSeq>, id: NodeId)
    requires Gathered(replies, |replies|, sigs)
    ensures id in sigs <==> exists i :: 0 <= i < |replies| && SignedBy(replies[i], id)
    ensures forall i :: 0 <= i < |replies| && SignedBy(replies[i], id)
                        && (forall j :: i < j < |replies| ==> !SignedBy(replies[j], id)) ==>
              id in sigs && Some(sigs[id]) == replies[i].signature
  {
    var p := LastReply(replies, |replies|, id);
    forall i | 0 <= i < |replies| && SignedBy(replies[i], id) ensures Usable(replies[i]) {
    }
    if p != -1 {
      assert SignedBy(replies[p], id);
    }
  }

  /** The reply a member sends with what Attest says. */
  function ReplyOf(st: Statement, id: NodeId, signature: ByteSeq, cert: ByteSeq): Reply {
    Reply(id, st.checkpoint.height, st.checkpoint.digest, Some(signature), Some(cert), st.signed)
  }

  /** A member asked to co-sign a checkpoint counts as a signer exactly when it stands there and can
      sign, and as diverged, which calls for a second pass, exactly when it stands elsewhere. */
  lemma RepliesTell(head: ChainHead, hasSigner: bool, ckpt: Checkpoint, now: I64, id: NodeId, signature: ByteSeq,
                    cert: ByteSeq)
    requires id != []
    ensures var r := ReplyOf(Attest(head, hasSigner, Some(ckpt), now), id, signature, cert);
            var there := ckpt.height == head.index && ckpt.digest == head.digest;
            (Usable(r) <==> hasSigner && there) && (Diverges(ckpt, r) <==> !there)
  {
    AttestOwnHead(head, hasSigner, Some(ckpt), now);
  }

  /** A member answers through Attest, asked to co-sign ckpt, and signs with its certified key. */
  ghost predicate AnswersHonestly(bls: Bls, certs: map<NodeId, NodeCert>, signed: set<Signature>, ckpt: Checkpoint,
                                  r: Reply) {
    Usable(r) ==> exists head: ChainHead, now: I64 ::
        && r.nodeId in certs && Attest(head, true, Some(ckpt), now).signed
        && Attested(bls, certs, signed, Attest(head, true, Some(ckpt), now).checkpoint, r.nodeId, r.signature.value)
  }

  /** What honest members reply yields a certificate that verifies: every signature gathered is
      over the one checkpoint of the pass that gathered it. */
  lemma CollectedStands(bls: Bls, ca: CertAuthority, certs: map<NodeId, NodeCert>, signed: set<Signature>, now: I64,
                        ckpt: Checkpoint, replies: seq<Reply>, sigs: map<NodeId, ByteSeq>, threshold: int,
                            ids: seq<NodeId>)
    requires bls.Canonical() && bls.Complete(signed) && Gathered(replies, |replies|, sigs) && 0 < |sigs|
        && threshold <= |sigs| && Lists(ids, sigs)
    requires forall i :: 0 <= i < |replies| ==> AnswersHonestly(bls, certs, signed, ckpt, replies[i])
    requires forall id :: id in sigs ==> Certified(ca, certs, now, id)
    ensures var agg := bls.aggregate(Ordered(sigs, ids));
            agg.Some? && Stands(bls, ca, QuorumCertificate(ckpt, ids, agg.value), certs, threshold, now)
  {
    forall id | id in sigs ensures Attested(bls, certs, signed, ckpt, id, sigs[id]) {
      GatheredAttested(bls, certs, signed, ckpt, replies, sigs, id);
    }
    BuiltStands(bls, ca, ckpt, sigs, certs, signed, threshold, now, ids);
  }

  lemma GatheredAttested(bls: Bls, certs: map<NodeId, NodeCert>, signed: set<Signature>, ckpt: Checkpoint,
                         replies: seq<Reply>, sigs: map<NodeId, ByteSeq>, id: NodeId)
    requires Gathered(replies, |replies|, sigs) && id in sigs
    requires forall i :: 0 <= i < |replies| ==> AnswersHonestly(bls, certs, signed, ckpt, replies[i])
    ensures Attested(bls, certs, signed, ckpt, id, sigs[id])
  {
    var r := replies[LastReply(replies, |replies|, id)];
    var head: ChainHead, at: I64 :|
      && r.nodeId in certs && Attest(head, true, Some(ckpt), at).signed
      && Attested(bls, certs, signed, Attest(head, true, Some(ckpt), at).checkpoint, r.nodeId, r.signature.value);
    AttestOwnHead(head, true, Some(ckpt), at);
  }
}
