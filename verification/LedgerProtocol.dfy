/** The ledger as a protocol: nodes fold their own logs and sign their own heads, a CA
    certifies their keys, and anyone may present certificates to a verifier.
    pkg/replication/ledger_service.go and pkg/ledger/ca.go. */
module LedgerProtocol {
  import opened Bytes
  import opened KeyCodec
  import opened HashChain
  import opened Quorum
  import opened Certificates

  // ----- Attest -------------------------------------------------------------------------------

  datatype Statement = Statement(checkpoint: Checkpoint, signed: bool)

  /** A node's answer about its chain head, given the checkpoint it is asked to co-sign, if any. */
  function Attest(head: ChainHead, hasSigner: bool, want: Option<Checkpoint>, now: I64): Statement {
    var own := Checkpoint(head.index, 0, head.digest, now);
    match want
    case None => Statement(own, hasSigner)
    case Some(w) =>
      if w.height != head.index || w.digest != head.digest then Statement(own, false)
      else Statement(w, hasSigner)
  }

  ghost predicate States(c: Checkpoint, head: ChainHead) {
    ChainHead(c.height, c.digest) == head
  }

  /** Signed or not, the answer reports the node's own head; it is signed exactly when the node
      can sign and nothing else was asked for; and it is the checkpoint asked for, as it stands,
      or the head under the node's own stamp. */
  lemma AttestOwnHead(head: ChainHead, hasSigner: bool, want: Option<Checkpoint>, now: I64)
    ensures var s := Attest(head, hasSigner, want, now);
            && States(s.checkpoint, head)
            && (s.signed <==> hasSigner && (want.Some? ==> States(want.value, head)))
            && (if want.Some? && States(want.value, head) then s.checkpoint == want.value
                else s.checkpoint == Checkpoint(head.index, 0, head.digest, now))
  {
  }

  // ----- The cluster ----------------------------------------------------------------------------

  /** A node with its ledger key, if it has one, and the entries it has folded since it started
      with an empty disk; past holds what it had folded each time before. */
  datatype Node = Node(key: Option<PublicKey>, log: seq<LogRecord>, past: seq<seq<LogRecord>>)

  /** rogue holds the nodes whose keys sign anything at all; signed and issued are all the
      signatures and certificates made so far. */
  datatype Cluster = Cluster(nodes: map<NodeId, Node>, rogue: set<NodeId>, signed: set<Signature>,
                             issued: set<NodeCert>)

  datatype LedgerEvent =
    | Fold(id: NodeId, record: LogRecord)
    | Rejoin(id: NodeId)
    | AskAttest(id: NodeId, want: Option<Checkpoint>, now: I64)
    | ProvePossession(id: NodeId)
    | Issue(id: NodeId, pub: PublicKey, notAfter: I64)
    | SignAnything(id: NodeId, msg: ByteSeq)

  predicate Holds(cl: Cluster, id: NodeId, pub: PublicKey) {
    id in cl.nodes && cl.nodes[id].key == Some(pub)
  }

  ghost predicate RogueKey(cl: Cluster, pub: PublicKey) {
    exists id :: id in cl.rogue && Holds(cl, id, pub)
  }

  function Head(h: Hash, n: Node): ChainHead {
    HeadOf(h, GENESIS, n.log)
  }

  function Folding(n: Node, r: LogRecord): Node {
    n.(log := n.log + [r])
  }

  /** Back without its disk, a node seeds its chain at genesis, and the snapshot it then restores
      does not reseed it. */
  function StartingOver(n: Node): Node {
    n.(log := [], past := n.past + [n.log])
  }

  ghost function Next(h: Hash, cl: Cluster, e: LedgerEvent): Cluster {
    match e
    case Fold(id, r) =>
      if id in cl.nodes then cl.(nodes := cl.nodes[id := Folding(cl.nodes[id], r)]) else cl
    case Rejoin(id) =>
      if id in cl.nodes then cl.(nodes := cl.nodes[id := StartingOver(cl.nodes[id])]) else cl
    case AskAttest(id, want, now) =>
      if id !in cl.nodes || cl.nodes[id].key.None? then cl
      else
        var s := Attest(Head(h, cl.nodes[id]), true, want, now);
        if s.signed
        then cl.(signed := cl.signed + {Signature(cl.nodes[id].key.value, SignMessage(s.checkpoint, id))})
        else cl
    case ProvePossession(id) =>
      if id !in cl.nodes || cl.nodes[id].key.None? then cl
      else
        var pub := cl.nodes[id].key.value;
        cl.(signed := cl.signed + {Signature(pub, PopMessage(id, pub))})
    case Issue(id, pub, notAfter) =>
      // The CA checks the proof of possession and nothing else: a rogue node may get its own key
      // certified under any id.
      if Signature(pub, PopMessage(id, pub)) in cl.signed
      then cl.(issued := cl.issued + {NodeCert(id, pub, notAfter)})
      else cl
    case SignAnything(id, msg) =>
      if id in cl.rogue && id in cl.nodes && cl.nodes[id].key.Some?
      then cl.(signed := cl.signed + {Signature(cl.nodes[id].key.value, msg)})
      else cl
  }

  ghost function After(h: Hash, start: Cluster, events: seq<LedgerEvent>): Cluster {
    if events == [] then start else Next(h, After(h, start, events[..|events| - 1]), events[|events| - 1])
  }

  /** Nothing folded, signed or issued yet, and every node made its own key. */
  ghost predicate Initial(cl: Cluster) {
    && cl.signed == {} && cl.issued == {}
    && (forall id :: id in cl.nodes ==> cl.nodes[id].log == [] && cl.nodes[id].past == [])
    && OwnKeys(cl)
  }

  ghost predicate OwnKeys(cl: Cluster) {
    && (forall a, b, pub :: Holds(cl, a, pub) && Holds(cl, b, pub) ==> a == b)
    && (forall a, pub :: Holds(cl, a, pub) ==> |pub| == PUBLIC_KEY_SIZE)
  }

  // ----- Where signatures come from -----------------------------------------------------------------

  /** The node has had folded exactly these entries. */
  ghost predicate Folded(n: Node, entries: seq<LogRecord>) {
    entries <= n.log || exists k :: 0 <= k < |n.past| && entries <= n.past[k]
  }

  /** c states a head the node has had. */
  ghost predicate StatedHead(h: Hash, n: Node, c: Checkpoint) {
    exists entries :: Folded(n, entries) && States(c, HeadOf(h, GENESIS, entries))
  }

  ghost predicate Checkpointed(h: Hash, n: Node, id: NodeId, msg: ByteSeq) {
    exists c :: StatedHead(h, n, c) && msg == SignMessage(c, id)
  }

  /** An honest node's signature is over a head it has had, or its proof of possession. */
  ghost predicate Honest(h: Hash, cl: Cluster, id: NodeId, s: Signature) {
    && Holds(cl, id, s.pub)
    && (id in cl.rogue || s.msg == PopMessage(id, s.pub) || Checkpointed(h, cl.nodes[id], id, s.msg))
  }

  ghost predicate SignaturesExplained(h: Hash, cl: Cluster) {
    forall s :: s in cl.signed ==> exists id :: Honest(h, cl, id, s)
  }

  ghost predicate CertsOwned(cl: Cluster) {
    forall c :: c in cl.issued ==>
      |c.publicKey| == PUBLIC_KEY_SIZE && (RogueKey(cl, c.publicKey) || Holds(cl, c.nodeId, c.publicKey))
  }

  lemma StatedStays(h: Hash, n: Node, c: Checkpoint)
    requires StatedHead(h, n, c)
    ensures StatedHead(h, StartingOver(n), c)
    ensures forall r :: StatedHead(h, Folding(n, r), c)
  {
    var entries :| Folded(n, entries) && States(c, HeadOf(h, GENESIS, entries));
    assert StartingOver(n).past[|n.past|] == n.log;
    forall k | 0 <= k < |n.past| ensures StartingOver(n).past[k] == n.past[k] {
    }
    assert Folded(StartingOver(n), entries);
    forall r ensures StatedHead(h, Folding(n, r), c) {
      assert Folded(Folding(n, r), entries);
    }
  }

  lemma SignedHead(h: Hash, n: Node, id: NodeId, want: Option<Checkpoint>, now: I64)
    ensures var s := Attest(Head(h, n), true, want, now);
            Checkpointed(h, n, id, SignMessage(s.checkpoint, id))
  {
    var s := Attest(Head(h, n), true, want, now);
    assert Folded(n, n.log);
    assert StatedHead(h, n, s.checkpoint);
  }

  lemma HonestKept(h: Hash, cl: Cluster, e: LedgerEvent, id: NodeId, s: Signature)
    requires Honest(h, cl, id, s)
    ensures Honest(h, Next(h, cl, e), id, s)
  {
    if (e.Fold? || e.Rejoin?) && e.id == id && Checkpointed(h, cl.nodes[id], id, s.msg) {
      var c :| StatedHead(h, cl.nodes[id], c) && s.msg == SignMessage(c, id);
      StatedStays(h, cl.nodes[id], c);
    }
  }

  lemma NewSignatureHonest(h: Hash, cl: Cluster, e: LedgerEvent, s: Signature)
    requires s in Next(h, cl, e).signed && s !in cl.signed
    ensures exists id :: Honest(h, Next(h, cl, e), id, s)
  {
    if e.AskAttest? {
      SignedHead(h, cl.nodes[e.id], e.id, e.want, e.now);
    }
    assert Honest(h, Next(h, cl, e), e.id, s);
  }

  lemma StepExplained(h: Hash, cl: Cluster, e: LedgerEvent)
    requires SignaturesExplained(h, cl)
    ensures SignaturesExplained(h, Next(h, cl, e))
  {
    forall s | s in Next(h, cl, e).signed ensures exists id :: Honest(h, Next(h, cl, e), id, s) {
      if s in cl.signed {
        var id :| Honest(h, cl, id, s);
        HonestKept(h, cl, e, id, s);
      } else {
        NewSignatureHonest(h, cl, e, s);
      }
    }
  }

  lemma PopInjective(x: NodeId, y: NodeId, pub: PublicKey)
    requires PopMessage(x, pub) == PopMessage(y, pub)
    ensures x == y
  {
    SplitEqual(PopDomain(), x + ([0] + pub), PopDomain(), y + ([0] + pub));
    TailEqual(x, [0] + pub, y, [0] + pub);
  }

  /** An honest node's key is certified only under that node's id: nobody else can give the proof
      of possession. */
  lemma PossessionProved(h: Hash, cl: Cluster, id: NodeId, pub: PublicKey)
    requires SignaturesExplained(h, cl) && OwnKeys(cl)
    requires Signature(pub, PopMessage(id, pub)) in cl.signed
    ensures |pub| == PUBLIC_KEY_SIZE && (RogueKey(cl, pub) || Holds(cl, id, pub))
  {
    var s := Signature(pub, PopMessage(id, pub));
    var x :| Honest(h, cl, x, s);
    if x !in cl.rogue {
      if s.msg == PopMessage(x, pub) {
        PopInjective(id, x, pub);
      } else {
        var c :| StatedHead(h, cl.nodes[x], c) && s.msg == SignMessage(c, x);
        DomainsDiffer(c, x, id, pub);
      }
    }
  }

  ghost predicate Safe(h: Hash, cl: Cluster) {
    SignaturesExplained(h, cl) && CertsOwned(cl) && OwnKeys(cl)
  }

  lemma StepSafe(h: Hash, cl: Cluster, e: LedgerEvent)
    requires Safe(h, cl)
    ensures Safe(h, Next(h, cl, e))
  {
    StepExplained(h, cl, e);
    assert forall id, pub :: Holds(Next(h, cl, e), id, pub) <==> Holds(cl, id, pub);
    if e.Issue? && Next(h, cl, e) != cl {
      PossessionProved(h, cl, e.id, e.pub);
    }
  }

  lemma {:induction false} AlwaysSafe(h: Hash, start: Cluster, events: seq<LedgerEvent>)
    requires Initial(start)
    ensures Safe(h, After(h, start, events))
    ensures After(h, start, events).rogue == start.rogue
    ensures After(h, start, events).nodes.Keys == start.nodes.Keys
  {
    if events != [] {
      AlwaysSafe(h, start, events[..|events| - 1]);
      StepSafe(h, After(h, start, events[..|events| - 1]), events[|events| - 1]);
    }
  }

  // ----- Agreement --------------------------------------------------------------------------------

  ghost function Authority(cl: Cluster, wellFormed: PublicKey -> bool): CertAuthority {
    var bodies := set c | c in cl.issued :: CertBody(c);
    CertAuthority(cert => CertBody(cert) in bodies, wellFormed)
  }

  /** The ids the CA has certified. */
  ghost function CertifiedIds(cl: Cluster): set<NodeId> {
    set c | c in cl.issued :: c.nodeId
  }

  /** The ids for which the CA has certified a rogue node's key. */
  ghost function Compromised(cl: Cluster): set<NodeId> {
    set c | c in cl.issued && RogueKey(cl, c.publicKey) :: c.nodeId
  }

  /** The ids of nodes that have started over. */
  ghost function Rejoined(cl: Cluster): set<NodeId> {
    set id | id in cl.nodes && cl.nodes[id].past != []
  }

  /** Certificates stored under their own node id, as the bundle stores them. */
  ghost predicate Bundled(certs: map<NodeId, NodeCert>) {
    forall id :: id in certs ==> certs[id].nodeId == id
  }

  lemma AcceptedIsIssued(cl: Cluster, wellFormed: PublicKey -> bool, certs: map<NodeId, NodeCert>, now: I64, id: NodeId)
    requires CertsOwned(cl) && Authority(cl, wellFormed).Sized()
    requires Certified(Authority(cl, wellFormed), certs, now, id)
    ensures certs[id] in cl.issued
  {
    var c :| c in cl.issued && CertBody(c) == CertBody(certs[id]);
    CertBodyInjective(c, certs[id]);
  }

  /** An honest signer of a certificate that stands has had the head it attests. */
  lemma HonestSigner(h: Hash, cl: Cluster, bls: Bls, wellFormed: PublicKey -> bool,
                     qc: QuorumCertificate, certs: map<NodeId, NodeCert>, threshold: int, now: I64, id: NodeId)
    requires Safe(h, cl) && bls.Canonical() && bls.Unforgeable(cl.signed) && Authority(cl, wellFormed).Sized()
        && Bundled(certs)
    requires Stands(bls, Authority(cl, wellFormed), qc, certs, threshold, now) && id in qc.signers
    ensures id in CertifiedIds(cl)
    ensures id !in Compromised(cl) ==> id in cl.nodes && StatedHead(h, cl.nodes[id], qc.checkpoint)
  {
    SignersSigned(bls, Authority(cl, wellFormed), qc, certs, threshold, now, cl.signed, id);
    AcceptedIsIssued(cl, wellFormed, certs, now, id);
    if id !in Compromised(cl) {
      assert !RogueKey(cl, certs[id].publicKey);
      SignedByHolder(h, cl, id, certs[id].publicKey, qc.checkpoint);
    }
  }

  lemma SignedByHolder(h: Hash, cl: Cluster, id: NodeId, pub: PublicKey, c: Checkpoint)
    requires Safe(h, cl) && Holds(cl, id, pub) && id !in cl.rogue
    requires Signature(pub, SignMessage(c, id)) in cl.signed
    ensures StatedHead(h, cl.nodes[id], c)
  {
    var s := Signature(pub, SignMessage(c, id));
    var x :| Honest(h, cl, x, s);
    assert x == id;
    DomainsDiffer(c, id, id, pub);
    var d :| StatedHead(h, cl.nodes[id], d) && s.msg == SignMessage(d, id);
    SignMessageInjective(c, id, d, id);
  }

  lemma {:induction false} DistinctCount(s: seq<NodeId>, ids: set<NodeId>)
    requires Distinct(s) && forall id :: id in ids <==> id in s
    ensures |ids| == |s|
  {
    if s == [] {
      assert ids == {};
    } else {
      var last := s[|s| - 1];
      DistinctCount(s[..|s| - 1], ids - {last});
    }
  }

  /** Two quorums of a population share a member outside any set they outweigh. */
  lemma QuorumsMeet(a: seq<NodeId>, b: seq<NodeId>, all: set<NodeId>, rogue: set<NodeId>) returns (id: NodeId)
    requires Distinct(a) && Distinct(b)
    requires (forall x :: x in a ==> x in all) && (forall x :: x in b ==> x in all)
    requires |a| + |b| > |all| + |rogue|
    ensures id in a && id in b && id !in rogue
  {
    var sa, sb := set x | x in a, set x | x in b;
    DistinctCount(a, sa);
    DistinctCount(b, sb);
    SubsetCount(sa + sb, all);
    assert |sa * sb| == |sa| + |sb| - |sa + sb|;
    if sa * sb <= rogue {
      SubsetCount(sa * sb, rogue);
      assert false;
    }
    id :| id in sa * sb && id !in rogue;
  }

  lemma {:induction false} SubsetCount(a: set<NodeId>, b: set<NodeId>)
    requires a <= b
    ensures |a| <= |b|
  {
    if a != {} {
      var x :| x in a;
      SubsetCount(a - {x}, b - {x});
    }
  }

  /** A node that never started over has had one digest at each height. */
  lemma OneHeadPerHeight(h: Hash, n: Node, c: Checkpoint, d: Checkpoint)
    requires n.past == [] && StatedHead(h, n, c) && StatedHead(h, n, d) && c.height == d.height
    ensures c.digest == d.digest
  {
    var x :| Folded(n, x) && States(c, HeadOf(h, GENESIS, x));
    var y :| Folded(n, y) && States(d, HeadOf(h, GENESIS, y));
    assert x == n.log[..|x|] && y == n.log[..|y|];
    if |x| <= |y| {
      HeadMonotone(h, GENESIS, n.log, |x|, |y|);
    } else {
      HeadMonotone(h, GENESIS, n.log, |y|, |x|);
    }
  }

  /** Both certificates are accepted, against the CA as it is at this point of the run. */
  ghost predicate BothStand(cl: Cluster, bls: Bls, wellFormed: PublicKey -> bool,
                            qa: QuorumCertificate, certsA: map<NodeId, NodeCert>, ta: int, nowA: I64,
                            qb: QuorumCertificate, certsB: map<NodeId, NodeCert>, tb: int, nowB: I64) {
    && bls.Canonical() && bls.Unforgeable(cl.signed) && Authority(cl, wellFormed).Sized()
    && Bundled(certsA) && Stands(bls, Authority(cl, wellFormed), qa, certsA, ta, nowA)
    && Bundled(certsB) && Stands(bls, Authority(cl, wellFormed), qb, certsB, tb, nowB)
  }

  /** In every run, whatever the nodes fold and whoever presents the certificates: two
      certificates of one height, accepted at thresholds that together outweigh the certified ids
      and, once more, those that were certified for a rogue key or whose node started over, attest
      one digest. */
  lemma QuorumAgreement(h: Hash, start: Cluster, events: seq<LedgerEvent>, bls: Bls, wellFormed: PublicKey -> bool,
                        qa: QuorumCertificate, certsA: map<NodeId, NodeCert>, ta: int, nowA: I64,
                        qb: QuorumCertificate, certsB: map<NodeId, NodeCert>, tb: int, nowB: I64)
    requires Initial(start)
    requires var cl := After(h, start, events);
             && BothStand(cl, bls, wellFormed, qa, certsA, ta, nowA, qb, certsB, tb, nowB)
             && ta + tb > |CertifiedIds(cl)| + |Compromised(cl) + Rejoined(cl)|
    requires qa.checkpoint.height == qb.checkpoint.height
    ensures qa.checkpoint.digest == qb.checkpoint.digest
  {
    var cl := After(h, start, events);
    AlwaysSafe(h, start, events);
    forall x | x in qa.signers ensures x in CertifiedIds(cl) {
      HonestSigner(h, cl, bls, wellFormed, qa, certsA, ta, nowA, x);
    }
    forall x | x in qb.signers ensures x in CertifiedIds(cl) {
      HonestSigner(h, cl, bls, wellFormed, qb, certsB, tb, nowB, x);
    }
    var id := QuorumsMeet(qa.signers, qb.signers, CertifiedIds(cl), Compromised(cl) + Rejoined(cl));
    HonestSigner(h, cl, bls, wellFormed, qa, certsA, ta, nowA, id);
    HonestSigner(h, cl, bls, wellFormed, qb, certsB, tb, nowB, id);
    OneHeadPerHeight(h, cl.nodes[id], qa.checkpoint, qb.checkpoint);
  }

  /** Where the operator certifies rogue keys, if any, under rogue ids only, it is enough to outweigh
      the certified ids, the rogue nodes and those that started over. With neither kind a majority
      threshold will do. */
  lemma MajorityAgreement(h: Hash, start: Cluster, events: seq<LedgerEvent>, bls: Bls, wellFormed: PublicKey -> bool,
                          qa: QuorumCertificate, certsA: map<NodeId, NodeCert>, ta: int, nowA: I64,
                          qb: QuorumCertificate, certsB: map<NodeId, NodeCert>, tb: int, nowB: I64)
    requires Initial(start)
    requires var cl := After(h, start, events);
             && BothStand(cl, bls, wellFormed, qa, certsA, ta, nowA, qb, certsB, tb, nowB)
             && (forall c :: c in cl.issued && RogueKey(cl, c.publicKey) ==> c.nodeId in cl.rogue)
             && ta + tb > |CertifiedIds(cl)| + |cl.rogue| + |Rejoined(cl)|
    requires qa.checkpoint.height == qb.checkpoint.height
    ensures qa.checkpoint.digest == qb.checkpoint.digest
  {
    var cl := After(h, start, events);
    SubsetCount(Compromised(cl), cl.rogue);
    assert |Compromised(cl) + Rejoined(cl)| <= |Compromised(cl)| + |Rejoined(cl)|;
    QuorumAgreement(h, start, events, bls, wellFormed, qa, certsA, ta, nowA, qb, certsB, tb, nowB);
  }

  /** Honest signers of agreeing certificates folded one history up to the checkpoint, or the
      hash is broken and here is the evidence. */
  lemma SignersShareHistory(h: Hash, m: Node, n: Node, c: Checkpoint, d: Checkpoint)
    returns (x: seq<LogRecord>, y: seq<LogRecord>, w: Evidence)
    requires h.Sized() && StatedHead(h, m, c) && StatedHead(h, n, d) && c.digest == d.digest
    ensures Folded(m, x) && States(c, HeadOf(h, GENESIS, x)) && Folded(n, y) && States(d, HeadOf(h, GENESIS, y))
    ensures Proves(h, w, Effective(0, x), Effective(0, y))
  {
    x :| Folded(m, x) && States(c, HeadOf(h, GENESIS, x));
    y :| Folded(n, y) && States(d, HeadOf(h, GENESIS, y));
    w := TamperEvidence(h, x, y);
  }

  // ----- Accepted certificates exist ----------------------------------------------------------------------

  lemma AfterSnoc(h: Hash, start: Cluster, events: seq<LedgerEvent>, e: LedgerEvent)
    ensures After(h, start, events + [e]) == Next(h, After(h, start, events), e)
  {
    assert (events + [e])[..|events|] == events;
  }

  function OwnCheckpoint(h: Hash, n: Node, now: I64): Checkpoint {
    Checkpoint(Head(h, n).index, 0, Head(h, n).digest, now)
  }

  function Enlisting(id: NodeId, pub: PublicKey, notAfter: I64): seq<LedgerEvent> {
    [ProvePossession(id)] + [Issue(id, pub, notAfter)]
  }

  lemma Enlisted(h: Hash, start: Cluster, events: seq<LedgerEvent>, id: NodeId, pub: PublicKey, notAfter: I64)
    requires var cl := After(h, start, events);
             id in cl.nodes && cl.nodes[id].key == Some(pub)
    ensures var cl, next := After(h, start, events), After(h, start, events + Enlisting(id, pub, notAfter));
            next == cl.(signed := cl.signed + {Signature(pub, PopMessage(id, pub))},
                        issued := cl.issued + {NodeCert(id, pub, notAfter)})
  {
    var e := events + [ProvePossession(id)];
    AfterSnoc(h, start, events, ProvePossession(id));
    AfterSnoc(h, start, e, Issue(id, pub, notAfter));
    ProveAndIssue(h, After(h, start, events), id, pub, notAfter);
    assert events + Enlisting(id, pub, notAfter) == e + [Issue(id, pub, notAfter)];
  }

  lemma ProveAndIssue(h: Hash, cl: Cluster, id: NodeId, pub: PublicKey, notAfter: I64)
    requires id in cl.nodes && cl.nodes[id].key == Some(pub)
    ensures Next(h, Next(h, cl, ProvePossession(id)), Issue(id, pub, notAfter))
            == cl.(signed := cl.signed + {Signature(pub, PopMessage(id, pub))},
                   issued := cl.issued + {NodeCert(id, pub, notAfter)})
  {
  }

  lemma HeadAttested(h: Hash, start: Cluster, events: seq<LedgerEvent>, id: NodeId, pub: PublicKey, now: I64)
    requires var cl := After(h, start, events);
             id in cl.nodes && cl.nodes[id].key == Some(pub)
    ensures var cl := After(h, start, events);
            After(h, start, events + [AskAttest(id, None, now)])
            == cl.(signed := cl.signed + {Signature(pub, SignMessage(OwnCheckpoint(h, cl.nodes[id], now), id))})
  {
    AfterSnoc(h, start, events, AskAttest(id, None, now));
  }

  /** From any run, a node with a key that proves possession, is certified until some time and attests
      its head yields a certificate that is accepted up to then. */
  lemma NodeCanCertify(h: Hash, start: Cluster, events: seq<LedgerEvent>, id: NodeId, now: I64,
                       notAfter: I64, wellFormed: PublicKey -> bool)
    returns (more: seq<LedgerEvent>, bls: Bls, qc: QuorumCertificate, certs: map<NodeId, NodeCert>)
    requires id in After(h, start, events).nodes && (now == 0 || notAfter == 0 || now <= notAfter)
    requires After(h, start, events).nodes[id].key.Some? && wellFormed(After(h, start, events).nodes[id].key.value)
    ensures var cl := After(h, start, events + more);
            && bls.Canonical() && bls.Unforgeable(cl.signed) && bls.Complete(cl.signed) && Bundled(certs)
            && Stands(bls, Authority(cl, wellFormed), qc, certs, 1, now)
            && States(qc.checkpoint, Head(h, After(h, start, events).nodes[id]))
    ensures qc.signers == [id] && id in certs && certs[id].notAfter == notAfter
  {
    var n := After(h, start, events).nodes[id];
    var pub := n.key.value;
    more := Enlisting(id, pub, notAfter) + [AskAttest(id, None, now)];
    Enlisted(h, start, events, id, pub, notAfter);
    HeadAttested(h, start, events + Enlisting(id, pub, notAfter), id, pub, now);
    assert events + more == events + Enlisting(id, pub, notAfter) + [AskAttest(id, None, now)];
    var cl := After(h, start, events + more);
    var cert, c := NodeCert(id, pub, notAfter), OwnCheckpoint(h, n, now);
    bls := IdealScheme(cl.signed);
    certs := map[id := cert];
    qc := QuorumCertificate(c, [id], []);
    assert cert in cl.issued && Signature(pub, SignMessage(c, id)) in cl.signed;
    SingleStands(bls, cl, wellFormed, cert, c, now);
  }

  lemma SingleStands(bls: Bls, cl: Cluster, wellFormed: PublicKey -> bool, cert: NodeCert, c: Checkpoint, now: I64)
    requires bls.Canonical() && cert in cl.issued && wellFormed(cert.publicKey) && InForce(cert, now)
    requires bls.verifyAggregate([cert.publicKey], [SignMessage(c, cert.nodeId)], [])
    ensures Stands(bls, Authority(cl, wellFormed), QuorumCertificate(c, [cert.nodeId], []),
        map[cert.nodeId := cert], 1, now)
  {
    var certs := map[cert.nodeId := cert];
    assert Keys(certs, [cert.nodeId]) == [cert.publicKey];
    assert Messages(bls, c, [cert.nodeId]) == [SignMessage(c, cert.nodeId)];
  }

  // ----- Starting over can split a quorum -----------------------------------------------------------------

  function FoldAll(id: NodeId, rs: seq<LogRecord>): seq<LedgerEvent> {
    if rs == [] then [] else FoldAll(id, rs[..|rs| - 1]) + [Fold(id, rs[|rs| - 1])]
  }

  /** A cluster of one node. */
  function Alone(id: NodeId, n: Node, signed: set<Signature>, issued: set<NodeCert>): Cluster {
    Cluster(map[id := n], {}, signed, issued)
  }

  lemma FoldAlone(h: Hash, id: NodeId, n: Node, signed: set<Signature>, issued: set<NodeCert>, r: LogRecord)
    ensures Next(h, Alone(id, n, signed, issued), Fold(id, r)) == Alone(id, Folding(n, r), signed, issued)
  {
    assert map[id := n][id := Folding(n, r)] == map[id := Folding(n, r)];
  }

  lemma FoldsSnoc(id: NodeId, events: seq<LedgerEvent>, log: seq<LogRecord>, rs: seq<LogRecord>)
    requires rs != []
    ensures var init, r := rs[..|rs| - 1], rs[|rs| - 1];
            && events + FoldAll(id, rs) == events + FoldAll(id, init) + [Fold(id, r)]
            && log + rs == log + init + [r]
  {
  }

  lemma {:induction false} FoldsAlone(h: Hash, start: Cluster, events: seq<LedgerEvent>, id: NodeId, n: Node,
                                      signed: set<Signature>, issued: set<NodeCert>, rs: seq<LogRecord>)
    requires After(h, start, events) == Alone(id, n, signed, issued)
    ensures After(h, start, events + FoldAll(id, rs)) == Alone(id, n.(log := n.log + rs), signed, issued)
  {
    if rs == [] {
      assert events + FoldAll(id, rs) == events && n.log + rs == n.log;
    } else {
      var init, r := rs[..|rs| - 1], rs[|rs| - 1];
      FoldsAlone(h, start, events, id, n, signed, issued, init);
      AfterSnoc(h, start, events + FoldAll(id, init), Fold(id, r));
      FoldAlone(h, id, n.(log := n.log + init), signed, issued, r);
      FoldsSnoc(id, events, n.log, rs);
    }
  }

  /** A node gets its certificate, folds a log and attests its head. */
  function FirstLife(id: NodeId, pub: PublicKey, log: seq<LogRecord>, now: I64): seq<LedgerEvent> {
    Enlisting(id, pub, 0) + FoldAll(id, log) + [AskAttest(id, None, now)]
  }

  function Attesting(h: Hash, id: NodeId, pub: PublicKey, n: Node, now: I64): Signature {
    Signature(pub, SignMessage(OwnCheckpoint(h, n, now), id))
  }

  lemma FirstLifeEnd(h: Hash, id: NodeId, pub: PublicKey, log: seq<LogRecord>, now: I64)
    ensures After(h, Alone(id, Node(Some(pub), [], []), {}, {}), FirstLife(id, pub, log, now))
            == Alone(id, Node(Some(pub), log, []), {Signature(pub, PopMessage(id, pub)),
                     Attesting(h, id, pub, Node(Some(pub), log, []), now)}, {NodeCert(id, pub, 0)})
  {
    var none, pop, certs := Node(Some(pub), [], []), {Signature(pub, PopMessage(id, pub))}, {NodeCert(id, pub, 0)};
    var start, e := Alone(id, none, {}, {}), Enlisting(id, pub, 0);
    Enlisted(h, start, [], id, pub, 0);
    assert [] + e == e;
    FoldsAlone(h, start, e, id, none, pop, certs, log);
    assert [] + log == log;
    HeadAttested(h, start, e + FoldAll(id, log), id, pub, now);
  }

  lemma SecondLifeEnd(h: Hash, start: Cluster, events: seq<LedgerEvent>, id: NodeId, pub: PublicKey,
                      n: Node, signed: set<Signature>, issued: set<NodeCert>, log: seq<LogRecord>, now: I64)
    requires After(h, start, events) == Alone(id, n, signed, issued) && n.key == Some(pub)
    ensures var again := StartingOver(n).(log := log);
            After(h, start, events + [Rejoin(id)] + FoldAll(id, log) + [AskAttest(id, None, now)])
            == Alone(id, again, signed + {Attesting(h, id, pub, again, now)}, issued)
  {
    RejoinsAlone(h, start, events, id, n, signed, issued);
    var e := events + [Rejoin(id)];
    FoldsAlone(h, start, e, id, StartingOver(n), signed, issued, log);
    assert [] + log == log;
    HeadAttested(h, start, e + FoldAll(id, log), id, pub, now);
  }

  lemma RejoinsAlone(h: Hash, start: Cluster, events: seq<LedgerEvent>, id: NodeId, n: Node,
                     signed: set<Signature>, issued: set<NodeCert>)
    requires After(h, start, events) == Alone(id, n, signed, issued)
    ensures After(h, start, events + [Rejoin(id)]) == Alone(id, StartingOver(n), signed, issued)
  {
    AfterSnoc(h, start, events, Rejoin(id));
    RejoinAlone(h, id, n, signed, issued);
  }

  lemma RejoinAlone(h: Hash, id: NodeId, n: Node, signed: set<Signature>, issued: set<NodeCert>)
    ensures Next(h, Alone(id, n, signed, issued), Rejoin(id)) == Alone(id, StartingOver(n), signed, issued)
  {
    assert map[id := n][id := StartingOver(n)] == map[id := StartingOver(n)];
  }

  lemma AloneCounts(id: NodeId, pub: PublicKey, n: Node, signed: set<Signature>)
    requires n.key == Some(pub) && n.past != []
    ensures var cl := Alone(id, n, signed, {NodeCert(id, pub, 0)});
            CertifiedIds(cl) == Rejoined(cl) == {id} && Compromised(cl) == {}
  {
    var cl := Alone(id, n, signed, {NodeCert(id, pub, 0)});
    assert NodeCert(id, pub, 0) in cl.issued;
  }

  lemma AloneInitial(id: NodeId, pub: PublicKey)
    requires |pub| == PUBLIC_KEY_SIZE
    ensures Initial(Alone(id, Node(Some(pub), [], []), {}, {}))
  {
  }

  /** A certified node folds and attests the first n entries, starts over, and after the entries
      from b attests n again. */
  function TwoLives(id: NodeId, pub: PublicKey, log: seq<LogRecord>, b: nat, n: nat, now: I64): seq<LedgerEvent>
    requires b <= n <= |log|
  {
    FirstLife(id, pub, log[..n], now) + [Rejoin(id)] + FoldAll(id, log[b..n]) + [AskAttest(id, None, now)]
  }

  lemma TwoLivesEnd(h: Hash, id: NodeId, pub: PublicKey, log: seq<LogRecord>, b: nat, n: nat, now: I64)
    requires b <= n <= |log|
    ensures var first, second := Node(Some(pub), log[..n], []), Node(Some(pub), log[b..n], [log[..n]]);
            After(h, Alone(id, Node(Some(pub), [], []), {}, {}), TwoLives(id, pub, log, b, n, now))
            == Alone(id, second,
                     {Signature(pub, PopMessage(id, pub)), Attesting(h, id, pub, first, now)}
                     + {Attesting(h, id, pub, second, now)},
                     {NodeCert(id, pub, 0)})
  {
    var start, first := Alone(id, Node(Some(pub), [], []), {}, {}), Node(Some(pub), log[..n], []);
    FirstLifeEnd(h, id, pub, log[..n], now);
    SecondLifeEnd(h, start, FirstLife(id, pub, log[..n], now), id, pub, first,
                  {Signature(pub, PopMessage(id, pub)), Attesting(h, id, pub, first, now)},
                  {NodeCert(id, pub, 0)}, log[b..n], now);
    assert [] + [log[..n]] == [log[..n]];
  }

  /** Two checkpoints one certified node signed both stand at threshold 1. */
  lemma BothOfOneStand(cl: Cluster, wellFormed: PublicKey -> bool, cert: NodeCert, c: Checkpoint, d: Checkpoint,
                       now: I64)
    returns (bls: Bls, qa: QuorumCertificate, qb: QuorumCertificate, certs: map<NodeId, NodeCert>)
    requires cert in cl.issued && wellFormed(cert.publicKey) && InForce(cert, now)
    requires Authority(cl, wellFormed).Sized()
    requires Signature(cert.publicKey, SignMessage(c, cert.nodeId)) in cl.signed
    requires Signature(cert.publicKey, SignMessage(d, cert.nodeId)) in cl.signed
    ensures BothStand(cl, bls, wellFormed, qa, certs, 1, now, qb, certs, 1, now)
    ensures qa.checkpoint == c && qb.checkpoint == d
  {
    bls := IdealScheme(cl.signed);
    certs := map[cert.nodeId := cert];
    qa := QuorumCertificate(c, [cert.nodeId], []);
    qb := QuorumCertificate(d, [cert.nodeId], []);
    SingleStands(bls, cl, wellFormed, cert, c, now);
    SingleStands(bls, cl, wellFormed, cert, d, now);
  }

  /** So the bound of QuorumAgreement is sharp: with one certified node that has started over, two
      certificates accepted at threshold 1 attest two digests at one height, short of a broken
      hash. */
  lemma RejoinSplits(h: Hash, id: NodeId, pub: PublicKey, log: seq<LogRecord>, b: nat, n: nat, now: I64,
                     wellFormed: PublicKey -> bool)
    returns (start: Cluster, bls: Bls, qa: QuorumCertificate, qb: QuorumCertificate, certs: map<NodeId, NodeCert>,
             w: Evidence)
    requires h.Sized() && Increasing(0, log) && 0 < b < n <= |log|
    requires wellFormed(pub) && (forall k :: wellFormed(k) ==> |k| == PUBLIC_KEY_SIZE)
    ensures Initial(start)
    ensures var cl := After(h, start, TwoLives(id, pub, log, b, n, now));
            && BothStand(cl, bls, wellFormed, qa, certs, 1, now, qb, certs, 1, now)
            && CertifiedIds(cl) == Rejoined(cl) == {id} && Compromised(cl) == {}
    ensures qa.checkpoint.height == qb.checkpoint.height
    ensures qa.checkpoint.digest == qb.checkpoint.digest ==> BrokenHash(h, w)
  {
    start := Alone(id, Node(Some(pub), [], []), {}, {});
    var cl := After(h, start, TwoLives(id, pub, log, b, n, now));
    AloneInitial(id, pub);
    TwoLivesEnd(h, id, pub, log, b, n, now);
    var first, second := Node(Some(pub), log[..n], []), Node(Some(pub), log[b..n], [log[..n]]);
    AloneCounts(id, pub, second, cl.signed);
    bls, qa, qb, certs := BothOfOneStand(cl, wellFormed, NodeCert(id, pub, 0), OwnCheckpoint(h, first, now),
                                         OwnCheckpoint(h, second, now), now);
    w := RejoinedHead(h, log, b, n);
  }
}
