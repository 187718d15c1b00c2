# A verified model of consensusdb

consensusdb is a raft-replicated key-value database with a verifiable ledger, encrypted
backups, role-based access control and its own node PKI. This project models the parts
where its guarantees are made, and proves them for every input, every run and every
interleaving.

* **Keys and storage** (`KeyCodec`, `OrderedKeys`, `Storage`, `StorageLaws`, `Enumeration`).
  Keys are written field by field into one buffer. Entries carry a version and an expiry.
  Compare-and-set, batches, counters, reclaiming and scans work on that store and announce
  what they commit to a watch hub.
* **Replication** (`HashChain`, `Fsm`, `FsmLaws`, `CommandLaws`, `ReplicaLaws`, `Service`). A state machine
  applies the raft log, folds each entry into a hash chain and stores the chain head in the
  database itself. Runs over whole logs are data, so versions, heads, clocks and restarts can
  be compared at any two points.
* **Ledger** (`Quorum`, `Certificates`, `LedgerProtocol`, `Collection`). Nodes attest their own
  heads. A coordinator gathers signatures of one checkpoint into a certificate, and anybody
  checks it against the ledger CA.
* **Backups** (`BackupFormat`, `BackupStream`, `BackupContainer`). A buffering writer and a
  frame-by-frame reader around an AEAD, with position and finality in the nonce.
* **Access control** (`Iam`, `IamLaws`, `StoredAccess`, `Bindings`, `Purge`, `PurgeLaws`, `PolicyCache`). IAM records
  compile to a snapshot that decides requests. Deletion purges a principal. A dirty flag, a
  lock and a watch keep the snapshot current.
* **Enrollment** (`Enrollment`, `EnrollmentLaws`, `Admission`). Concurrent callers redeem join tokens and
  create the CA over the replicated store, reading states that may be stale.

Libraries that the source calls are parameters with a stated contract: the UUID encoding and
the value codecs are lossless, SHA-256 is any function with 32-byte results, the AEAD opens
what it sealed and, for integrity, nothing else under that key, BLS aggregates over distinct
messages verify only if every signature in them was made, and a clock is any pair of
"expires after" and "is expired". Integers have their Go widths: versions and counters wrap
at 2^64, nonces keep 56 bits of the frame counter, key fields keep 65535 bytes.

Some promises turn out to hold only under a condition. The model keeps the code as it is, shows
the failure and states the exact condition:

* A restore in place does not reseed the in-memory chain. A replica that was behind the
  snapshot, a freshly started one included, reports another digest from then on; one that was
  not behind is right once the log has caught up with it (`ReplicaLaws.RestoreKeepsChain`).
* A restore also sends no watch events, so a mirror fed by the hub has a key right exactly when
  the snapshot did not change it or an entry has touched it since
  (`Service.RestoredWatchExactly`).
* The policy watch starts after the first rebuild and hears nothing of a restore, so such a
  change stays unseen until a later write or a rebuild that was still to scan
  (`PolicyCache.CoherentExactly`, `PolicyCache.EarlyWriteMissed`, `PolicyCache.RestoreMissed`).
* Region policy keys join tenant and region with a slash, so one tenant is isolated from another
  exactly when neither name is the other or extends it by a slash (`IamLaws.IsolatedExactly`).
* The bytes a node signs do not mark where the digest ends and the id begins, so messages are
  told apart exactly when the digests have one length or digest and id together do not
  (`Quorum.ToldApartExactly`).
* A node that comes back without its store starts its chain over, and may then attest another
  digest at a height it has attested before. Certificates agree once their thresholds outweigh
  such nodes too, and one such node splits certificates whose thresholds only reach that bound
  (`LedgerProtocol.QuorumAgreement`, `LedgerProtocol.RejoinSplits`).
* A burned join token is marked as expired at the first second of the epoch, so tokens are
  single-use exactly where no clock reads that early (`EnrollmentLaws.SingleUseExactly`).

`dafny verify dfyconfig.toml` verifies the project.

## Model

| member | source | states |
|---|---|---|
| `KeyCodec.EncodeKey` | pkg/server/key.go:105-150 | Writing the fields in place, spills included, leaves exactly the entry key of the truncated fields, and the row key is its prefix. |
| `KeyCodec.EncodeKeyPrefix` | pkg/server/key.go:152-214 | The in-place writer gives the prefix bytes down to the field asked for, and fails only for a timestamp the key lacks. |
| `KeyCodec.RoundTrip` | pkg/server/key.go:40-150 | Decoding an encoded key gives back the key with its fields cut to 65535 bytes, with every read in bounds. |
| `KeyCodec.DecodesExactly` | pkg/server/key.go:40-103 | Any bytes decode to a key exactly when they begin with its row, its fields are of storable length and its timestamp is read from the sixteen bytes behind the row, if there are so many. |
| `KeyCodec.SameEntry` | pkg/server/key.go:105-150 | Two keys share an entry exactly when their truncated fields and timestamps agree. |
| `KeyCodec.PrefixExact` | pkg/server/key.go:152-214 | A prefix is a byte prefix of an entry key exactly when the key agrees with it on every field down to the last. |
| `Storage.KeyValueStorage.Put` | pkg/server/storage.go:624-691 | The store and the hub after a put, a failed compare-and-set or a missing key, against the effect function the laws are about. |
| `Storage.KeyValueStorage.Touch` | pkg/server/storage.go:568-622 | Touch rewrites version and expiry alone, and reports a missing key without a change. |
| `Storage.KeyValueStorage.Remove` | pkg/server/storage.go:693-718 | Remove deletes the entry and announces it, present or not. |
| `Storage.KeyValueStorage.Increment` | pkg/server/storage.go:820-880 | The counter, its envelope and the answer after an increment with 64-bit wrap-around. |
| `Storage.KeyValueStorage.SetBatch` | pkg/server/storage.go:882-942 | A batch commits all its records or, on a missing key, none, and announces what it committed. |
| `Storage.KeyValueStorage.Reclaim` | pkg/server/storage.go:763-815 | Reclaim deletes the items still at their listed version and counts what it deleted. |
| `Storage.KeyValueStorage.Get` | pkg/server/storage.go:254-321 | A read hides an expired entry and never changes the store. |
| `Storage.KeyValueStorage.ScanExpired` | pkg/server/storage.go:720-761 | The scan lists the expired entries it passed, stops at its limit, and reports failure when cancelled. |
| `Storage.CollectExpired` | pkg/server/storage.go:720-761 | The scan's loop over any list of stored keys, with its limit and cancellation. |
| `Storage.KeyValueStorage.GetArea` | pkg/server/storage.go:428-500 | The blocks sent concatenate to the visible records of the area, or to a prefix of them when the sender refuses one. |
| `Storage.KeyValueStorage.Scan` | pkg/server/storage.go:502-566 | The same for the whole store. |
| `Storage.StreamBlocks` | pkg/server/storage.go:428-566 | Every block sent was taken and full except the last; together they are what an iterator over the keys yields. |
| `Storage.StageBatch` | pkg/server/storage.go:882-942 | Staging succeeds exactly when every record has a key, and stages the in-order changes, later duplicates of a key counting from the staged version. |
| `StorageLaws.WatchRefinesState` | pkg/server/storage.go:157-942 | After any run of operations, folding the notifications into an empty mirror gives exactly the stored values and versions. |
| `StorageLaws.BatchIsFoldOfPuts` | pkg/server/storage.go:882-942 | A batch is its records as unconditional puts in order, at the shared index or counting each key up; a missing key leaves everything. |
| `StorageLaws.CounterIsSum` | pkg/server/storage.go:820-880 | Where only increments reach a key its eight bytes are the first initial value plus all deltas modulo 2^64. |
| `StorageLaws.IncrementReply` | pkg/server/storage.go:829-880 | Each answer's previous value is the answer before, and its current value the running sum. |
| `StorageLaws.CounterRoundTrip` | pkg/server/storage.go:820-880 | Reading a stored counter back gives the number stored, negative ones included. |
| `StorageLaws.ReclaimExact` | pkg/server/storage.go:763-815 | Reclaim removes exactly the keys listed at their stored version, and the count is the drop in store size however often an item repeats. |
| `StorageLaws.GetExact` | pkg/server/storage.go:254-321 | A read shows version, expiry, metadata and value of what is stored under the key and has not expired, and of an absent or expired key nothing but the key. |
| `StorageLaws.ExpiredSound` | pkg/server/storage.go:720-761 | Whatever a scan lists was expired, at the listed version, when the scan passed it. |
| `StorageLaws.ExpiredComplete` | pkg/server/storage.go:720-761 | A scan passes over no expired entry. |
| `StorageLaws.AreaExact` | pkg/server/storage.go:428-500 | An area scan yields exactly the unexpired records of the area, once each, in key order. |
| `StorageLaws.UnaddressedKept` | pkg/server/storage.go:568-942 | No command changes a key it does not address. |
| `StorageLaws.CommandKeepsEncoded` | pkg/server/storage.go:568-942 | No command stores a key that the key encoder did not make. |
| `Enumeration.WatchExact` | pkg/server/server.go:47-61 | A watch hears exactly the keys that an enumeration of the same prefix lists, at the depth of the last field set. |
| `Enumeration.UnderExactly` | pkg/server/vrpc_data.go:241-258 | A prefix counts down to the last of major key, region and minor key that is set. |
| `Enumeration.ScannedExact` | pkg/server/vrpc_data.go:134-160 | An enumeration meets all stored keys under its prefix and no others, ascending, and lists of them what has not expired when met. |
| `Enumeration.Enumerate` | pkg/server/vrpc_data.go:134-179 | The stream is the scan of the prefix, or the sorted scan when asked for order, up to the record at which the reader's context is cancelled. |
| `Enumeration.OrderedStream` | pkg/server/vrpc_data.go:156-176 | An ordered stream is sorted by minor key in the direction asked for as far as it is heard, and heard to the end it is a permutation of the scan. |
| `Enumeration.SortUnique` | pkg/server/vrpc_data.go:163-169 | Records with distinct minor keys have one ascending order, whatever sort is used. |
| `Enumeration.ReverseIsBackwards` | pkg/server/vrpc_data.go:163-169 | For them reverse enumeration is the forward one backwards. |
| `HashChain.Chain.Advance` | pkg/ledger/hashchain.go:69-75 | The head moves only for a higher index, to the digest over the previous one and the entry. |
| `HashChain.AdvanceIsFold` | pkg/ledger/hashchain.go:38-75 | Advancing over any log, late and repeated entries included, is the plain fold over a part of it whose indices strictly increase, and stands at the last of them. |
| `HashChain.PreimageInjective` | pkg/ledger/hashchain.go:38-50 | The hashed bytes determine the previous digest, index, term and command. |
| `HashChain.PreimageLayout` | pkg/ledger/hashchain.go:38-50 | The hashed bytes are the previous digest, index and term in eight bytes each, and the command. |
| `HashChain.Explain` | pkg/ledger/hashchain.go:38-50 | Two logs with one digest yield that they are equal, a hash collision, or a preimage of the zero digest. |
| `HashChain.TamperEvidence` | pkg/ledger/hashchain.go:38-75 | Two nodes at one head folded one history, or there is a collision or zero preimage to show. |
| `HashChain.HeadMonotone` | pkg/ledger/hashchain.go:69-75 | Along one log the index never falls and one index has one digest. |
| `HashChain.RejoinedHead` | pkg/ledger/hashchain.go:69-75 | A chain that starts over in the middle of a log stands at the right index with another digest, short of a broken hash. |
| `Fsm.CommandRoundTrip` | pkg/replication/command.go:33-77 | Decoding an encoded command gives the command, for every kind. |
| `Fsm.StateMachine.PostConstruct` | pkg/replication/fsm.go:51-55 | Starting seeds the chain from the stored head. |
| `Fsm.StateMachine.EnsureChain` | pkg/replication/fsm.go:67-72 | The chain is seeded from the stored head the first time and kept afterwards. |
| `Fsm.StateMachine.AdvanceChain` | pkg/replication/fsm.go:114-121 | The chain advances over the entry and its head is stored at the entry's index before the command runs. |
| `Fsm.StateMachine.Apply` | pkg/replication/fsm.go:74-111 | Store, hub, chain and answer after an entry, undecodable ones included, against the function the laws are about. |
| `Fsm.StateMachine.Restore` | pkg/replication/fsm.go:130-136 | The store is replaced and the chain in memory left as it was. |
| `Fsm.StateMachine.ReadHead` | pkg/ledger/head.go:46-61 | The stored head, or genesis when the record is missing, expired or malformed. |
| `FsmLaws.Replay` | pkg/replication/fsm.go:74-111 | Every log has a run of the state machine. |
| `CommandLaws.CommandExact` | pkg/server/storage.go:568-942 | On any store, replicated or raft-off, each of the six commands leaves the named keys with the value, metadata, expiry and version it says, every other key as it was, and answers accordingly; a batch leaves the last record that names each key. |
| `CommandLaws.RunExact` | pkg/replication/fsm.go:74-121 | In every run every entry stores its head, does what its command says at its own index and answers so; one that does not decode does nothing else. |
| `FsmLaws.VersionIsLastWrite` | pkg/replication/fsm.go:74-111 | At every point of every run every key's version, the head record's included, is the index of its last effective write. |
| `FsmLaws.NoAba` | pkg/server/storage.go:624-942 | A version seen twice at any key means no write or removal in between and the identical entry throughout. |
| `FsmLaws.CasExact` | pkg/server/storage.go:624-691 | Compare-and-set on a version above zero succeeds exactly when the entry at that index wrote the key and nothing has touched it since; on the head record, which every entry writes first, exactly on the entry's own index. |
| `FsmLaws.ReclaimSafe` | pkg/replication/reclaimer.go:83-103 | A scan at one index reclaimed at any later one deletes only entries identical to what was seen expired, and answers with how many keys went. |
| `ReplicaLaws.ChainIsHistory` | pkg/replication/fsm.go:51-121 | The chain in memory is the chain over the log so far. |
| `ReplicaLaws.SeededAlike` | pkg/replication/fsm.go:51-72 | A node that seeds its chain at start runs like one that seeds it at the first entry. |
| `ReplicaLaws.HeadInStore` | pkg/ledger/head.go:46-77 | For logs that spare the head record, loading it after any entry gives the head over the whole log so far. |
| `ReplicaLaws.LoadHeadExact` | pkg/ledger/head.go:46-65 | The head loaded is the stored one if it is there, not expired, unpacks and has 32 bytes, and genesis in every other case. |
| `ReplicaLaws.RestartTransparent` | pkg/replication/fsm.go:51-136 | A state machine started over a prefix's backup, its chain seeded at once or later, gives the store, answers and digest of one that never stopped, at every entry. |
| `ReplicaLaws.RestoredChain` | pkg/replication/fsm.go:130-136 | A replica that had applied the first entries, none included, folds onto them whatever follows the snapshot it restores. |
| `ReplicaLaws.RestoreKeepsChain` | pkg/replication/fsm.go:51-136 | For every replica, snapshot point and later entry: the digest is that of the log exactly when the replica was not behind the snapshot and the log has caught up with it, short of a broken hash. |
| `ReplicaLaws.RestoreUnseeded` | pkg/replication/fsm.go:67-72 | A state machine whose chain was never seeded takes it from the snapshot and is right at every later entry. |
| `Service.StampBatch` | pkg/server/server.go:104-114 | The in-place loop stamps every record of the batch with its absolute expiry. |
| `Service.StampStamps` | pkg/server/server.go:64-114 | Whatever the service logs with a positive TTL carries a nonzero absolute expiry. |
| `Service.LeaderClockDecides` | pkg/server/server.go:64-114 | A stamped request under any replica's clock does what the request does under the leader's. |
| `Service.ClockFreeExactly` | pkg/server/storage.go:288-296 | An unconditional put is independent of the clock exactly when its expiry is fixed. |
| `Service.ClockIndependent` | pkg/replication/fsm.go:74-111 | One stamped log under any two clock schedules gives identical stores, answers and heads at every entry. |
| `Service.ServiceLogsAgree` | pkg/server/server.go:64-114 | Every log of service-made entries replays alike under all clocks. |
| `Service.ReplicaWatchRefines` | pkg/replication/fsm.go:74-121 | On every node, at every entry, the watch events so far replay to the store, head writes included. |
| `Service.RestoredWatchExactly` | pkg/replication/fsm.go:130-136 | After a restore into a running node and any later entries the watch mirror has a key right exactly when the snapshot held it as the store did or an entry has touched it since. |
| `Service.ReplicaKeysEncoded` | pkg/replication/fsm.go:74-121 | Every key a replica stores is an encoded key. |
| `Service.ReplicaScansDecode` | pkg/server/storage.go:428-566 | With a codec that decodes what it encodes, every key a scan of a replica meets decodes, and none takes the decoder out of range. |
| `Quorum.SignMessageInjective` | pkg/ledger/checkpoint.go:34-54 | Signed bytes tell checkpoint and signer apart when the digests have one length or digest and id together do not. |
| `Quorum.SignMessageAmbiguous` | pkg/ledger/checkpoint.go:49-54 | In every other case there are two different checkpoints and signers with the same signed bytes. |
| `Quorum.ToldApartExactly` | pkg/ledger/checkpoint.go:34-54 | Messages of given digest and id lengths are never confused exactly when the digest lengths agree or the totals differ. |
| `Quorum.SignMessageLayout` | pkg/ledger/checkpoint.go:34-54 | Signed bytes are the domain, height, term, digest and time of the checkpoint, a zero byte and the signer. |
| `Quorum.PopMessageLayout` | pkg/ledger/ca.go:96-101 | A proof of possession is over its domain, the id, a zero byte and the key. |
| `Quorum.DomainsDiffer` | pkg/ledger/ca.go:96-101 | A proof of possession never passes for a checkpoint signature. |
| `Certificates.IdealScheme` | pkg/ledger/bls.go:96-116 | Whatever has been signed, a signature scheme of the kind these laws assume exists. |
| `Certificates.CertBodyInjective` | pkg/ledger/ca.go:85-93 | The bytes the CA signs determine the certificate when the keys have one length or id and key together do not. |
| `Certificates.BodiesApartExactly` | pkg/ledger/ca.go:85-93 | Bodies of given id and key lengths are never confused exactly when the key lengths agree or the totals differ. |
| `Certificates.CertBodyLayout` | pkg/ledger/ca.go:85-93 | The CA signs its domain, the id, a zero byte, the key and the expiry. |
| `Certificates.VerifyQuorum` | pkg/ledger/checkpoint.go:98-129 | The loop accepts exactly when enough distinct ids are listed, each with a certificate the CA confirms, and the aggregate verifies over exactly their messages. |
| `Certificates.ExpiryDecides` | pkg/ledger/ca.go:128-140 | A certificate stands at a time exactly when it does with no clock and no signer has expired by then, and every signer then has a certificate the CA signed over a proper key. |
| `Certificates.MessagesDistinct` | pkg/ledger/checkpoint.go:49-54 | Distinct signers sign distinct messages, which is what aggregation needs. |
| `Certificates.SignersSigned` | pkg/ledger/checkpoint.go:98-129 | Every signer of an accepted certificate signed its checkpoint with its certified key. |
| `Certificates.BuildQuorumCertificate` | pkg/ledger/checkpoint.go:73-91 | Nothing to build from, or signatures that do not aggregate, is an error; otherwise each signer is listed once, in order, and its signature aggregated in that place. |
| `Certificates.BuiltStands` | pkg/ledger/checkpoint.go:73-129 | A certificate built from genuine attestations is accepted at any threshold they meet. |
| `LedgerProtocol.AttestOwnHead` | pkg/replication/ledger_service.go:133-151 | Signed or not, an answer reports the node's own head; it is signed exactly when the node can sign and nothing else was asked for, and is then the checkpoint asked for as it stands. |
| `LedgerProtocol.PossessionProved` | pkg/ledger/ca.go:105-124 | An honest node's key gets a certificate only under that node's id. |
| `LedgerProtocol.AlwaysSafe` | pkg/replication/ledger_service.go:133-151 | In every run each signature of an honest node is over a head it has had or is its proof of possession, and each certificate names its holder or holds a rogue key. |
| `LedgerProtocol.QuorumAgreement` | pkg/ledger/checkpoint.go:49-129 | In every run, whatever logs the nodes fold, two certificates of one height accepted at thresholds that outweigh the certified ids and, once more, those certified for a rogue key or whose node started over without its store attest one digest. |
| `LedgerProtocol.MajorityAgreement` | pkg/ledger/checkpoint.go:93-129 | Where rogue keys are certified under rogue ids only it is enough to outweigh the certified ids, the rogue nodes and those that started over; with neither kind a majority will do. |
| `LedgerProtocol.RejoinSplits` | pkg/replication/fsm.go:51-136 | The bound of QuorumAgreement cannot be lowered: a certified node that starts over anywhere in any log yields, at thresholds that reach it, two accepted certificates of one height with two digests, short of a broken hash. |
| `LedgerProtocol.SignersShareHistory` | pkg/ledger/hashchain.go:38-75 | Honest signers of one digest folded one history up to it, or the hash is broken. |
| `LedgerProtocol.NodeCanCertify` | pkg/ledger/ca.go:105-124 | From any run, a node that proves possession, is certified until some time and attests its head yields a certificate that is accepted up to then. |
| `Collection.CollectOnce` | pkg/console/ledger.go:145-171 | One pass keeps exactly the last usable signature of each node, lists the usable replies' nodes and certificates in order, and notes whether a member's head differed. |
| `Collection.GatheredExactly` | pkg/console/ledger.go:145-171 | A node's signature is kept exactly when one of its replies is signed and whole, and is that of the last such reply. |
| `Collection.RepliesTell` | pkg/replication/ledger_service.go:133-151 | A member counts as a signer exactly when it stands at the checkpoint and can sign, and calls for a second pass exactly when it stands elsewhere. |
| `Collection.CollectMaterials` | pkg/console/ledger.go:134-175 | The second pass runs exactly when a head differed in the first, and everything kept is from the pass whose checkpoint is returned. |
| `Collection.CollectedStands` | pkg/console/ledger.go:134-189 | What honest members reply builds a certificate that is accepted. |
| `BackupFormat.NonceExact` | pkg/backup/crypto.go:147-157 | Nonces coincide exactly for counters congruent modulo 2^56 with the same finality. |
| `BackupFormat.NonceLayout` | pkg/backup/crypto.go:147-158 | A nonce is the prefix, seven bytes of the counter and the finality flag. |
| `BackupFormat.BodyRoundTrip` | pkg/backup/crypto.go:209-304 | Reading a body gives its plaintext and stops at its end, whatever follows. |
| `BackupFormat.StreamIntegrity` | pkg/backup/crypto.go:265-304 | With an ideal AEAD and fewer than 2^56 frames a reader delivers a prefix of the plaintext, and ends without an error only on the writer's exact body. |
| `BackupFormat.TruncationDetected` | pkg/backup/crypto.go:280-304 | Every strict prefix of a body ends in an error. |
| `BackupFormat.TruncationExactly` | pkg/backup/crypto.go:280-304 | A dump cut anywhere delivers exactly the chunks that were whole, and its error tells a cut between frames from one inside a frame. |
| `BackupFormat.CompletesExactly` | pkg/backup/crypto.go:265-304 | A reader reaches the end exactly when its input begins with the writer's body, so dropped, repeated, swapped or altered frames fail, and it has then delivered the plaintext. |
| `BackupFormat.IdealSealing` | pkg/backup/crypto.go:137-157 | For every prefix and plaintext there is a cipher of the kind these laws assume. |
| `BackupStream.EncWriter.Fill` | pkg/backup/crypto.go:182-195 | One turn takes what fits, and seals a full buffer as a frame that is not final. |
| `BackupStream.EncWriter.Write` | pkg/backup/crypto.go:177-197 | All of the input joins what was written, or nothing after a close. |
| `BackupStream.EncWriter.Close` | pkg/backup/crypto.go:201-223 | The output is the header and the body of everything written, however it was split; closing twice is closing once. |
| `BackupStream.EncReader.Next` | pkg/backup/crypto.go:280-304 | One frame is opened, or the error says which way the stream is broken. |
| `BackupStream.EncReader.Read` | pkg/backup/crypto.go:265-277 | Bytes come from the front of what is ahead, at least one if there is room; EOF and errors come only when nothing is left to deliver. |
| `BackupContainer.WriteDump` | pkg/backup/crypto.go:68-92 | The container depends on the joined plaintext, the password, salt and prefix, never on the split into writes. |
| `BackupContainer.ReadBody` | pkg/backup/crypto.go:265-304 | Reading through any sequence of non-empty buffers terminates with the same bytes and the same ending. |
| `BackupContainer.HeaderRoundTrip` | pkg/backup/crypto.go:125-263 | An encrypted header opens to the derivation, prefix and body it was written with. |
| `BackupContainer.OpensExactly` | pkg/backup/crypto.go:97-262 | A source opens exactly when its first eight bytes begin a dump of this version, plain without a password, or encrypted with one and with parameters, salt and prefix all there. |
| `BackupContainer.PlainRoundTrip` | pkg/backup/crypto.go:97-122 | A plain dump opens without a password and is refused with one. |
| `BackupContainer.DumpRoundTrip` | pkg/backup/crypto.go:68-304 | A dump restores to its plaintext, encrypted or plain. |
| `Iam.Rebuild` | pkg/server/policy_service.go:105-163 | The loop over scanned records gives the compiled snapshot the laws are about. |
| `Iam.Authorize` | pkg/iam/policy.go:187-228 | The nested loops decide exactly the relation of flags, groups, scopes, bindings and roles in the snapshot. |
| `StoredAccess.CoversScope` | pkg/iam/policy.go:187-243 | A stored policy applies to a request exactly when it is stored under the instance, the request's tenant or its region. |
| `StoredAccess.StoredDecides` | pkg/server/policy_service.go:105-163 | The snapshot of well-formed stored records decides every request as their minor keys and contents say: not disabled, and an administrator or bound in a policy that covers it to a role with the permission. |
| `StoredAccess.RequestDecides` | pkg/iam/policy.go:138-152 | On the system tenant a request asks for the permission to read or to set IAM records, elsewhere for the one it names. |
| `IamLaws.CompiledIsDeclared` | pkg/server/policy_service.go:118-160 | For well-formed records the compiled snapshot grants exactly what the records declare: not disabled, and administrator or bound at a covering scope to a role with the permission. |
| `IamLaws.CompiledRoles` | pkg/server/policy_service.go:144-150 | A role has the permissions of its record, and a predefined role those compiled in, whatever a record says. |
| `IamLaws.ScanOrderIrrelevant` | pkg/server/policy_service.go:119-160 | Scans of the same records in any order decide alike. |
| `IamLaws.ParsedUnique` | pkg/iam/policy.go:232-243 | Records stored under their own names, each key once, never clash on an identity, role or scope. |
| `IamLaws.SystemTenantFloor` | pkg/iam/policy.go:141-151 | Nobody reaches the system tenant by a record permission: it takes the admin flag or, at a covering scope, a role with the IAM permission to get, and to set for anything that changes records. |
| `IamLaws.RegionScopesCollide` | pkg/iam/policy.go:198-206 | Scopes of regions of two tenants can coincide exactly when one name is the other or the other followed by a slash and more. |
| `IamLaws.TenantIsolation` | pkg/iam/policy.go:187-228 | No policy of one tenant or its regions bears on a request to another unless one name is the other or extends it by a slash. |
| `IamLaws.TenantLeak` | pkg/iam/policy.go:198-226 | Where one does, a single policy of the one decides a request on the other, in a region that is not empty. |
| `IamLaws.IsolatedExactly` | pkg/iam/policy.go:187-228 | One tenant is isolated from another exactly when their names are not so entangled, for any role table. |
| `IamLaws.SlashlessApart` | pkg/iam/policy.go:198-206 | Distinct names without a slash, as policy keys expect them, are never entangled. |
| `Bindings.ApplyBinding` | pkg/console/iam.go:496-546 | Who is bound to which role after a grant or a revocation, for every role and member. |
| `Bindings.RevokeUndoesGrant` | pkg/console/iam.go:496-524 | Revoking a fresh grant leaves everyone as before. |
| `Bindings.ScopeByMembers` | pkg/iam/policy.go:207-226 | A scope grants by who is bound to what, not by how the bindings are written. |
| `Bindings.GrantExact` | pkg/console/iam.go:496-546 | A grant adds exactly what the role gives to those members and their groups, and takes nothing away; an empty name counts only where the role was bound before. |
| `Purge.RemoveFrom` | pkg/console/iam.go:213-221 | The list without the principal, order kept. |
| `Purge.FilterBindings` | pkg/console/iam.go:184-191 | Filtering within the array leaves the stripped bindings, those without members dropped. |
| `Purge.Collect` | pkg/console/iam.go:139-170 | The scan collects exactly the records that name the principal. |
| `Purge.Region.PurgePrincipal` | pkg/console/iam.go:133-202 | Every record of the region afterwards: indexes naming the principal are gone, groups and policies naming it rewritten, the rest untouched. |
| `PurgeLaws.PurgeExact` | pkg/console/iam.go:133-202 | Purging removes the principal's tokens and certificates, rewrites the groups and policies that name it without it, and leaves every other record of the region as it was. |
| `PurgeLaws.WithoutInOrder` | pkg/console/iam.go:213-221 | Taking a principal out keeps the other members in order. |
| `PurgeLaws.WithoutOne` | pkg/console/iam.go:213-221 | A member stays exactly when it is another. |
| `PurgeLaws.StripInOrder` | pkg/console/iam.go:184-192 | So it does with the other bindings. |
| `PurgeLaws.StripOne` | pkg/console/iam.go:184-192 | A binding keeps its role and its other members, and goes exactly when it has none. |
| `PurgeLaws.DeletionComplete` | pkg/console/iam.go:109-202 | After deletion the recompiled snapshot denies the principal everything, and every other principal's decisions are unchanged. |
| `PurgeLaws.CredentialsRevoked` | pkg/console/iam.go:139-175 | No token or certificate index of the principal is left, and every other one is as it was. |
| `PolicyCache.AlwaysSound` | pkg/server/policy_service.go:45-163 | Over every interleaving, restores included, a delivered event is in the snapshot, or a rebuild that will see it is flagged, owed or running. |
| `PolicyCache.CoherentExactly` | pkg/server/policy_service.go:45-163 | At rest the snapshot is of the current records exactly when an event was published after the last change nobody was told of, that change was a restore with a rebuild still to scan, or nothing changed since the first scan. |
| `PolicyCache.EarlyWriteMissed` | pkg/server/policy_service.go:45-67 | A run in which a write before the watch stays unseen. |
| `PolicyCache.RestoreMissed` | pkg/replication/fsm.go:130-136 | A run in which a restore stays unseen. |
| `PolicyCache.NextAuthorizeRebuilds` | pkg/server/policy_service.go:79-102 | Flagged and with the lock free, the next request brings the snapshot up to date. |
| `PolicyCache.FailureRetried` | pkg/server/policy_service.go:79-90 | After a failed rebuild the same caller's next request brings the snapshot up to date. |
| `PolicyCache.FailureKeeps` | pkg/server/policy_service.go:79-118 | A failed rebuild leaves the snapshot and frees the lock, and the rebuild is flagged again. |
| `PolicyCache.DecisionsCurrent` | pkg/server/policy_service.go:79-163 | Under that condition decisions at rest are what the current records declare. |
| `PolicyCache.RequestsCurrent` | pkg/server/policy_service.go:79-163 | At rest every request is answered as the records stored now say. |
| `Enrollment.PutIsStorage` | pkg/server/storage.go:624-691 | The protocol's writes are the storage's own puts at the raft index. |
| `EnrollmentLaws.BurnedOnce` | pkg/console/pki.go:314-333 | A burn can succeed only on a token not burned before, however stale the read behind it. |
| `EnrollmentLaws.BurnSpends` | pkg/console/pki.go:314-333 | A burn replaces the record by one that expired at the first second, of the same creator. |
| `EnrollmentLaws.AlwaysSound` | pkg/console/pki.go:288-396 | In every run whose clocks are past the first second, a caller past the burn is the one that burned, and each certificate is its caller's only one. |
| `EnrollmentLaws.SingleUse` | pkg/console/pki.go:288-396 | In every such run a token minted once that is not the bootstrap token admits at most one node. |
| `EnrollmentLaws.BurnUndone` | pkg/console/pki.go:309-333 | With a clock at the first second, a run in which one token admits two nodes. |
| `EnrollmentLaws.SingleUseExactly` | pkg/console/pki.go:288-396 | Every run admits at most one node per token exactly when no clock reads as early as the mark of a burned one. |
| `EnrollmentLaws.TokenAdmits` | pkg/console/pki.go:288-351 | From any run a fresh token with any expiry, redeemed by one caller no later, does admit a node, with the stored CA or a new one. |
| `Admission.ExpiredAdmitsNobody` | pkg/console/pki.go:306-312 | In every run a minted token admits nobody if every clock that validates it reads later than its expiry. |
| `Admission.AdmitsExactly` | pkg/console/pki.go:255-351 | From any run a fresh token can admit a node exactly until it expires. |
| `Admission.BootstrapAdmitsAll` | pkg/console/pki.go:353-384 | From any run the bootstrap token, adopted or not, admits every one of any number of further callers. |
| `Admission.ConsumeExact` | pkg/console/pki.go:386-398 | Tidying up after a join keeps a reusable record and removes any other. |
| `Admission.LoserReloads` | pkg/console/pki.go:64-92 | A caller that loses the race to create the CA goes on with the winner's. |
| `EnrollmentLaws.SameAuthority` | pkg/console/pki.go:64-107 | In every run all successful ensureCA calls return one record, the stored one. |

## Left out

- Raft itself: the committed log is a sequence with increasing indices, and which node leads is not modelled.
- Badger: the store is an ordered map, transactions succeed, and its errors, compaction and size are not modelled.
- GetRecent and GetRange: reads by timestamp order over the same store, which would add members of the same kind as Scan.
- Watch delivery: the hub may drop events for a slow watcher; the laws are about the events sent, and PolicyCache assumes its own watcher keeps up.
- Fsm.StateMachine.Restore: the store becomes what the snapshot held, as the source's comment on it says; what Load leaves of keys the snapshot lacks is up to the storage engine, which it does not clear first.
- PolicyCache.CoherentExactly: a restore is one step; Load writes in batches, and a rebuild that scans in the middle of one sees a mixture that no event corrects.
- Persist reads storage lazily: a snapshot here is the store at one point, with no entry applied while it is taken.
- I/O errors of the backup's destination and source other than its end, and reads with an empty buffer.
- Wrong passwords: that a different key opens nothing is the AEAD's contract, not proved here.
- Argon2, AES-GCM, SHA-256, BLS, Ed25519 and x509: ideal functions with the contracts above; accepted node keys are taken to be the 96-byte compressed form.
- The table of predefined roles: a parameter, since the laws hold for every table.
- guardedBatch: one authorization of the batch's scope before the batch that Storage models.
- HTTP routing, proxying, TLS, node files, object storage, the CLI, metrics and the web console.
- First-admin setup: its compare-and-set is per user name, so the code does not decide uniqueness across names.
- EnrollmentLaws.SingleUse: expiry of the CA and of node certificates is not modelled; that of tokens is.
- Enrollment.PutIsStorage: raft-off versions, which restart after a removal, are not modelled in the protocol.
- FsmLaws.NoAba: claimed for the replicated path only, because raft-off counters restart at 1 after a removal.
