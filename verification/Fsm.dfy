/** The raft state machine: pkg/replication/fsm.go, command.go and pkg/ledger/head.go.

    Applying a committed entry folds it into the hash chain, stores the new head under a
    reserved key, then decodes the command and runs it against the store at the entry's
    index. */
module Fsm {
  import opened Bytes
  import opened KeyCodec
  import opened Storage
  import opened HashChain

  /** The payload packing of the raft commands, a library of its own. */
  datatype CommandCodec = CommandCodec(
    packRecord: RecordRequest -> ByteSeq, unpackRecord: ByteSeq -> Option<RecordRequest>,
    packKey: Option<Key> -> ByteSeq, unpackKey: ByteSeq -> Option<Option<Key>>,
    packIncrement: IncrementRequest -> ByteSeq, unpackIncrement: ByteSeq -> Option<IncrementRequest>,
    packBatch: seq<RecordRequest> -> ByteSeq, unpackBatch: ByteSeq -> Option<seq<RecordRequest>>,
    packReclaim: seq<ReclaimEntry> -> ByteSeq, unpackReclaim: ByteSeq -> Option<seq<ReclaimEntry>>)
  {
    ghost predicate Lossless() {
      && (forall r :: unpackRecord(packRecord(r)) == Some(r))
      && (forall k :: unpackKey(packKey(k)) == Some(k))
      && (forall r :: unpackIncrement(packIncrement(r)) == Some(r))
      && (forall rs :: unpackBatch(packBatch(rs)) == Some(rs))
      && (forall es :: unpackReclaim(packReclaim(es)) == Some(es))
    }
  }

  const OP_PUT: Byte := 1
  const OP_TOUCH: Byte := 2
  const OP_REMOVE: Byte := 3
  const OP_INCREMENT: Byte := 4
  const OP_BATCH: Byte := 5
  const OP_RECLAIM: Byte := 6

  function EncodeCommand(cc: CommandCodec, cmd: Command): ByteSeq {
    match cmd
    case Put(r) => [OP_PUT] + cc.packRecord(r)
    case Touch(r) => [OP_TOUCH] + cc.packRecord(r)
    case Remove(key) => [OP_REMOVE] + cc.packKey(key)
    case Increment(r) => [OP_INCREMENT] + cc.packIncrement(r)
    case Batch(rs) => [OP_BATCH] + cc.packBatch(rs)
    case Reclaim(es) => [OP_RECLAIM] + cc.packReclaim(es)
  }

  /** None where the entry is empty, its op is unknown or its payload does not unpack. */
  function DecodeCommand(cc: CommandCodec, data: ByteSeq): Option<Command> {
    if data == [] then None
    else
      var op, payload := data[0], data[1..];
      if op == OP_PUT || op == OP_TOUCH then
        match cc.unpackRecord(payload)
        case Some(r) => Some(if op == OP_PUT then Put(r) else Touch(r))
        case None => None
      else if op == OP_REMOVE then
        match cc.unpackKey(payload) case Some(key) => Some(Remove(key)) case None => None
      else if op == OP_INCREMENT then
        match cc.unpackIncrement(payload) case Some(r) => Some(Increment(r)) case None => None
      else if op == OP_BATCH then
        match cc.unpackBatch(payload) case Some(rs) => Some(Batch(rs)) case None => None
      else if op == OP_RECLAIM then
        match cc.unpackReclaim(payload) case Some(es) => Some(Reclaim(es)) case None => None
      else None
  }

  /** Decoding with a given packing, as the state machine is handed it. */
  function Decoder(cc: CommandCodec): ByteSeq -> Option<Command> {
    data => DecodeCommand(cc, data)
  }

  lemma CommandRoundTrip(cc: CommandCodec, cmd: Command)
    requires cc.Lossless()
    ensures DecodeCommand(cc, EncodeCommand(cc, cmd)) == Some(cmd)
  {
    var data := EncodeCommand(cc, cmd);
    match cmd
    case Put(r) => assert data[1..] == cc.packRecord(r);
    case Touch(r) => assert data[1..] == cc.packRecord(r);
    case Remove(key) => assert data[1..] == cc.packKey(key);
    case Increment(r) => assert data[1..] == cc.packIncrement(r);
    case Batch(rs) => assert data[1..] == cc.packBatch(rs);
    case Reclaim(es) => assert data[1..] == cc.packReclaim(es);
  }

  // ----- The persisted head ------------------------------------------------------------

  /** The packing of the head record, a library of its own. */
  datatype HeadCodec = HeadCodec(pack: ChainHead -> ByteSeq, unpack: ByteSeq -> Option<ChainHead>) {
    ghost predicate Lossless() {
      forall head: ChainHead :: |pack(head)| > 0 && unpack(pack(head)) == Some(head)
    }
  }

  function HeadKey(): Key {
    Key(Text("__ledger"), Text("CHAIN"), Text("head"), None)
  }

  /** What the state machine works with: the key codec, the hash, decodeCommand, the packing
      of the head record and the key it is stored under. */
  datatype Env = Env(keys: Codec, hash: Hash, decode: ByteSeq -> Option<Command>, heads: HeadCodec, headKey: Key) {
    function HeadEntry(): ByteSeq {
      keys.encode(headKey)
    }
  }

  /** Genesis stands in for a head record that is absent, empty, unreadable or of the wrong size. */
  function LoadHead(env: Env, db: Db, clock: Clock): ChainHead {
    var rec := GetRecord(env.keys, db, env.headKey, false, clock);
    if rec.value == [] then GENESIS
    else
      match env.heads.unpack(rec.value)
      case None => GENESIS
      case Some(head) => if |head.digest| == DIGEST_SIZE then head else GENESIS
  }

  function HeadRequest(env: Env, head: ChainHead): RecordRequest {
    RecordRequest(Some(env.headKey), env.heads.pack(head), 0, 0, false, 0, 0)
  }

  // ----- One entry -----------------------------------------------------------------------

  /** chain is None until PostConstruct or the first use of the head seeds it from the store. */
  datatype FsmState = FsmState(db: Db, hub: seq<Event>, chain: Option<ChainHead>)

  datatype FsmResult = Done(reply: Reply) | Undecodable

  const START: FsmState := FsmState(map[], [], None)

  function CurrentHead(env: Env, s: FsmState, clock: Clock): ChainHead {
    if s.chain.Some? then s.chain.value else LoadHead(env, s.db, clock)
  }

  /** A state machine after PostConstruct: its chain starts from the head in its store. */
  function Seeded(env: Env, s: FsmState, clock: Clock): FsmState {
    s.(chain := Some(LoadHead(env, s.db, clock)))
  }

  /** The chain advanced and its head stored at the entry's index. */
  function WithHead(env: Env, s: FsmState, r: LogRecord, clock: Clock): FsmState {
    var head := Advanced(env.hash, CurrentHead(env, s, clock), r);
    var cs := PutEffect(env.keys, s.db, HeadRequest(env, head), r.index, clock).changes;
    FsmState(ApplyChanges(s.db, cs), s.hub + Events(cs), Some(head))
  }

  /** The effect of the entry's command on the store it meets. */
  function EntryEffect(env: Env, db: Db, r: LogRecord, clock: Clock): Option<Effect> {
    match env.decode(r.command)
    case None => None
    case Some(cmd) => Some(CommandEffect(env.keys, db, cmd, r.index, clock))
  }

  function Applied(env: Env, s: FsmState, r: LogRecord, clock: Clock): FsmState {
    var s1 := WithHead(env, s, r, clock);
    match EntryEffect(env, s1.db, r, clock)
    case None => s1
    case Some(eff) => FsmState(ApplyChanges(s1.db, eff.changes), s1.hub + Events(eff.changes), s1.chain)
  }

  function ResultOf(env: Env, s: FsmState, r: LogRecord, clock: Clock): FsmResult {
    match EntryEffect(env, WithHead(env, s, r, clock).db, r, clock)
    case None => Undecodable
    case Some(eff) => Done(eff.reply)
  }

  // ----- The state machine object ----------------------------------------------------------

  class StateMachine {
    const env: Env
    const storage: KeyValueStorage
    var chain: Chain?

    constructor (env: Env, storage: KeyValueStorage)
      ensures this.env == env && this.storage == storage && chain == null
    {
      this.env := env;
      this.storage := storage;
      chain := null;
    }

    ghost predicate Valid() {
      storage.Valid() && env.keys == storage.codec && env.headKey == HeadKey()
    }

    function State(): FsmState
      reads this, storage, chain
    {
      FsmState(storage.db, storage.hub, if chain == null then None else Some(chain.Head()))
    }

    method ReadHead(clock: Clock) returns (head: ChainHead)
      requires Valid()
      ensures head == LoadHead(env, storage.db, clock)
    {
      var rec := storage.Get(Some(env.headKey), false, clock);
      if rec.None? || rec.value.value == [] {
        return GENESIS;
      }
      var unpacked := env.heads.unpack(rec.value.value);
      if unpacked.None? || |unpacked.value.digest| != DIGEST_SIZE {
        return GENESIS;
      }
      return unpacked.value;
    }

    method PostConstruct(clock: Clock)
      requires Valid()
      modifies this`chain
      ensures Valid() && fresh(chain)
      ensures State() == Seeded(env, old(State()), clock)
    {
      var head := ReadHead(clock);
      chain := new Chain(head.index, head.digest);
    }

    method EnsureChain(clock: Clock)
      requires Valid()
      modifies this`chain
      ensures Valid() && chain != null
      ensures old(chain) == null ==> fresh(chain) && chain.Head() == LoadHead(env, storage.db, clock)
      ensures old(chain) != null ==> chain == old(chain)
    {
      if chain == null {
        var head := ReadHead(clock);
        chain := new Chain(head.index, head.digest);
      }
    }

    method AdvanceChain(entry: LogRecord, clock: Clock)
      requires Valid()
      modifies this, storage, if chain == null then {} else {chain}
      ensures Valid() && chain != null
      ensures old(chain) == null ==> fresh(chain)
      ensures old(chain) != null ==> chain == old(chain)
      ensures State() == WithHead(env, old(State()), entry, clock)
    {
      EnsureChain(clock);
      chain.Advance(env.hash, entry.index, entry.term, entry.command);
      var head := chain.Head();
      var _ := storage.Put(HeadRequest(env, head), entry.index, clock);
    }

    method Apply(entry: LogRecord, clock: Clock) returns (result: FsmResult)
      requires Valid()
      modifies this, storage, if chain == null then {} else {chain}
      ensures Valid()
      ensures State() == Applied(env, old(State()), entry, clock)
      ensures result == ResultOf(env, old(State()), entry, clock)
    {
      AdvanceChain(entry, clock);
      var cmd := env.decode(entry.command);
      if cmd.None? {
        return Undecodable;
      }
      var reply := Dispatch(cmd.value, entry.index, clock);
      return Done(reply);
    }

    method Dispatch(cmd: Command, index: U64, clock: Clock) returns (reply: Reply)
      requires Valid()
      modifies storage
      ensures Valid()
      ensures var eff := CommandEffect(env.keys, old(storage.db), cmd, index, clock);
              && storage.db == ApplyChanges(old(storage.db), eff.changes)
              && storage.hub == old(storage.hub) + Events(eff.changes)
              && reply == eff.reply
    {
      match cmd
      case Put(r) => reply := storage.Put(r, index, clock);
      case Touch(r) => reply := storage.Touch(r, index, clock);
      case Remove(key) => reply := storage.Remove(key);
      case Increment(r) => reply := storage.Increment(r, index, clock);
      case Batch(rs) => reply := storage.SetBatch(rs, index, clock);
      case Reclaim(es) => reply := storage.Reclaim(es);
    }

    /** The store becomes what the snapshot held. The chain in memory is not touched. */
    method Restore(contents: Db)
      modifies storage`db
      ensures State() == old(State()).(db := contents)
    {
      storage.db := contents;
    }
  }
}
