/** Node enrollment over the replicated store: signNodeEnrollment, adoptBootstrapToken,
    consumeJoinToken and ensureCA of pkg/console/pki.go, run by any number of concurrent callers.

    Writes go through raft and see the newest state. Reads may be stale: they see the state after
    any number of commits. */
module Enrollment {
  import opened Bytes
  import opened KeyCodec
  import opened Storage

  type TokenHash = string

  datatype JoinRecord = JoinRecord(expiresAt: I64, reusable: bool, createdBy: string)

  /** Where records live and how they are encoded; bootstrap is the pre-shared token, if any. */
  datatype Setup = Setup(join: TokenHash -> ByteSeq, ca: ByteSeq, encode: JoinRecord -> ByteSeq,
                         decode: ByteSeq -> Option<JoinRecord>, bootstrap: Option<TokenHash>)
  {
    ghost predicate Proper() {
      && (forall a, b :: join(a) == join(b) ==> a == b) && (forall a :: join(a) != ca)
      && (forall j :: decode(encode(j)) == Some(j) && encode(j) != [])
    }

    /** A key of some record that is neither a join token nor the CA. */
    ghost predicate Foreign(k: ByteSeq) {
      k != ca && forall h :: k != join(h)
    }
  }

  /** Where a caller is: Ready to Burning in signNodeEnrollment, then as in ensureCA. */
  datatype Phase =
    | Ready | Adopting | Adopted | Found(entry: Entry) | Burning(entry: Entry)
    | LoadCa | CreateCa | ReloadCa | HaveCa(ca: ByteSeq) | Finished | Refused

  /** A call of signNodeEnrollment with a token, or of ensureCA alone. */
  datatype Caller = Caller(token: Option<TokenHash>, phase: Phase)

  datatype Certificate = Certificate(caller: nat, token: TokenHash)

  /** history[i] is the store after i commits. burned notes which caller burned a token;
      authorities are the records successful ensureCA calls returned. */
  datatype Pki = Pki(history: seq<Db>, callers: map<nat, Caller>, minted: set<TokenHash>, burned: map<TokenHash, nat>,
                     signed: seq<Certificate>, authorities: set<ByteSeq>)

  const START: Pki := Pki([map[]], map[], {}, map[], [], {})

  datatype Step =
    | Begin(t: nat, token: Option<TokenHash>)
    | LookUp(t: nat, at: nat)
    | Adopt(t: nat)
    | Validate(t: nat, now: I64)
    | Burn(t: nat)
    | ReadCa(t: nat, at: nat)
    | MakeCa(t: nat, made: Option<ByteSeq>)
    | Sign(t: nat)
    | Abort(t: nat)
    | Mint(hash: TokenHash, expiresAt: I64)
    | Consume(hash: TokenHash, at: nat)
    | Retire(hash: TokenHash)
    | Other(change: Change)

  /** A burned record is one that expired at the first second: in the past of any real clock. */
  const BURNED_AT: I64 := 1

  // ----- The store ------------------------------------------------------------------------------------

  function Current(p: Pki): Db
    requires p.history != []
  {
    p.history[|p.history| - 1]
  }

  /** A read that may be stale. */
  function ReadAt(p: Pki, at: nat, k: ByteSeq): Option<Entry> {
    if at < |p.history| then Lookup(p.history[at], k) else None
  }

  function Commit(p: Pki, db: Db): Pki {
    p.(history := p.history + [db])
  }

  /** A write through the log: its version is its index. */
  function PutNow(p: Pki, k: ByteSeq, value: ByteSeq): Pki
    requires 0 < |p.history| < TWO_TO_64
  {
    Commit(p, Current(p)[k := Entry(|p.history|, 0, value, 0)])
  }

  /** A compare-and-set write spends its index whether or not it takes effect. */
  function CasPut(p: Pki, k: ByteSeq, version: U64, value: ByteSeq): Pki
    requires 0 < |p.history| < TWO_TO_64
  {
    if CasHolds(Current(p), k, version) then PutNow(p, k, value) else Commit(p, Current(p))
  }

  /** These are the storage's own puts, committed at the raft index. */
  lemma PutIsStorage(p: Pki, codec: Codec, key: Key, value: ByteSeq, cas: bool, version: U64, clock: Clock)
    requires 0 < |p.history| < TWO_TO_64
    ensures var k := codec.encode(key);
            var f := PutEffect(codec, Current(p), RecordRequest(Some(key), value, 0, 0, cas, version, 0),
                |p.history|, clock);
            && f.reply == Status(cas ==> CasHolds(Current(p), k, version))
            && (if cas then CasPut(p, k, version, value)
                else PutNow(p, k, value)) == Commit(p, ApplyChanges(Current(p), f.changes))
  {
    var k := codec.encode(key);
    var f := PutEffect(codec, Current(p), RecordRequest(Some(key), value, 0, 0, cas, version, 0), |p.history|, clock);
    if f.changes != [] {
      ApplyOne(Current(p), f.changes[0]);
    }
  }

  // ----- Steps --------------------------------------------------------------------------------------------

  function Move(p: Pki, t: nat, phase: Phase): Pki
    requires t in p.callers
  {
    p.(callers := p.callers[t := Caller(p.callers[t].token, phase)])
  }

  function DoLookUp(s: Setup, p: Pki, t: nat, h: TokenHash, at: nat): Pki
    requires t in p.callers
  {
    var got := ReadAt(p, at, s.join(h));
    if got.Some? && got.value.value != [] then Move(p, t, Found(got.value))
    else if p.callers[t].phase.Ready? && s.bootstrap == Some(h) then Move(p, t, Adopting)
    else Move(p, t, Refused)
  }

  function Validated(s: Setup, e: Entry, now: I64): Phase {
    match s.decode(e.value)
    case None => Refused
    case Some(j) =>
      if j.expiresAt != 0 && now > j.expiresAt then Refused
      else if j.reusable then LoadCa
      else Burning(e)
  }

  function DoBurn(s: Setup, p: Pki, t: nat, h: TokenHash, e: Entry): Pki
    requires t in p.callers && 0 < |p.history| < TWO_TO_64
  {
    var createdBy := match s.decode(e.value) case Some(j) => j.createdBy case None => "";
    var q := CasPut(p, s.join(h), e.version, s.encode(JoinRecord(BURNED_AT, false, createdBy)));
    if CasHolds(Current(p), s.join(h), e.version) then Move(q, t, LoadCa).(burned := p.burned[h := t])
    else Move(q, t, Refused)
  }

  function Obtained(p: Pki, t: nat, ca: ByteSeq): Pki
    requires t in p.callers
  {
    Move(p, t, HaveCa(ca)).(authorities := p.authorities + {ca})
  }

  function DoReadCa(s: Setup, p: Pki, t: nat, at: nat): Pki
    requires t in p.callers
  {
    var got := ReadAt(p, at, s.ca);
    if got.Some? && got.value.value != [] then Obtained(p, t, got.value.value)
    else Move(p, t, if p.callers[t].phase.LoadCa? then CreateCa else Refused)
  }

  function DoMakeCa(s: Setup, p: Pki, t: nat, made: Option<ByteSeq>): Pki
    requires t in p.callers && 0 < |p.history| < TWO_TO_64
  {
    if made.None? then Move(p, t, Refused)
    else
      var q := CasPut(p, s.ca, 0, made.value);
      if CasHolds(Current(p), s.ca, 0) then Obtained(q, t, made.value) else Move(q, t, ReloadCa)
  }

  function DeleteToken(s: Setup, p: Pki, h: TokenHash): Pki
    requires p.history != []
  {
    Commit(p, ApplyChange(Current(p), DeleteKey(s.join(h))))
  }

  /** Tidying up after a join: the record goes, unless it is read as reusable. */
  function DoConsume(s: Setup, p: Pki, h: TokenHash, at: nat): Pki
    requires p.history != []
  {
    var got := ReadAt(p, at, s.join(h));
    if got.Some? && got.value.value != [] && s.decode(got.value.value).Some? && s.decode(got.value.value).value.reusable
    then p
    else DeleteToken(s, p, h)
  }

  /** A caller's step. */
  function CallerNext(s: Setup, p: Pki, t: nat, c: Caller, e: Step): Pki
    requires t in p.callers && p.callers[t] == c && 0 < |p.history| < TWO_TO_64
  {
    match (e, c.phase, c.token)
    case (LookUp(_, at), Ready, Some(h)) => DoLookUp(s, p, t, h, at)
    case (Adopt(_), Adopting, Some(h)) =>
      Move(CasPut(p, s.join(h), 0, s.encode(JoinRecord(0, true, "bootstrap-token"))), t, Adopted)
    case (LookUp(_, at), Adopted, Some(h)) => DoLookUp(s, p, t, h, at)
    case (Validate(_, now), Found(entry), Some(h)) => Move(p, t, Validated(s, entry, now))
    case (Burn(_), Burning(entry), Some(h)) => DoBurn(s, p, t, h, entry)
    case (ReadCa(_, at), LoadCa, _) => DoReadCa(s, p, t, at)
    // An encoded record is never empty.
    case (MakeCa(_, made), CreateCa, _) => if made == Some([]) then p else DoMakeCa(s, p, t, made)
    case (ReadCa(_, at), ReloadCa, _) => DoReadCa(s, p, t, at)
    case (Sign(_), HaveCa(_), None) => Move(p, t, Finished)
    case (Sign(_), HaveCa(_), Some(h)) => Move(p, t, Finished).(signed := p.signed + [Certificate(t, h)])
    case (Abort(_), _, _) => if c.phase.Finished? then p else Move(p, t, Refused)
    case _ => p
  }

  /** One step of anyone; a step that is not enabled changes nothing. A token is minted once, and an
      operator may delete its record at any time. */
  ghost function Next(s: Setup, p: Pki, e: Step): Pki
    requires p.history != []
  {
    if |p.history| >= TWO_TO_64 then p
    else match e
      case Begin(t, token) =>
        if t in p.callers then p else p.(callers := p.callers[t := Caller(token, if token.Some? then Ready
            else LoadCa)])
      case Mint(h, expiresAt) =>
        if h in p.minted then p
        else PutNow(p, s.join(h), s.encode(JoinRecord(expiresAt, false, ""))).(minted := p.minted + {h})
      case Consume(h, at) => DoConsume(s, p, h, at)
      case Retire(h) => DeleteToken(s, p, h)
      case Other(c) => if s.Foreign(c.key) then Commit(p, ApplyChange(Current(p), c)) else p
      case _ => if e.t in p.callers then CallerNext(s, p, e.t, p.callers[e.t], e) else p
  }

  ghost function After(s: Setup, steps: seq<Step>): (p: Pki)
    ensures p.history != []
  {
    if steps == [] then START else Next(s, After(s, steps[..|steps| - 1]), steps[|steps| - 1])
  }
}
